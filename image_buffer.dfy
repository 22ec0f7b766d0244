/** The pixel buffer every image operation works on: a flat, row-major RGB
    byte array with its width, height and channel depth (`ImageBuffer` in
    src/image_buffer.py). */
module ImageBuffers {
  import opened Common

  /** An integer RGB triple, as `get_pixel` returns it. */
  datatype Pixel = Pixel(r: int, g: int, b: int)

  /** A float RGB triple, as `set_pixel` and point operations accept it. */
  datatype Color = Color(r: real, g: real, b: real)

  const Black := Pixel(0, 0, 0)

  predicate IsBytePixel(p: Pixel) {
    0 <= p.r < 256 && 0 <= p.g < 256 && 0 <= p.b < 256
  }

  /** Channel `k` (0 = R, 1 = G, 2 = B) of an integer triple. */
  function Channel(p: Pixel, k: int): int {
    if k == 0 then p.r else if k == 1 then p.g else p.b
  }

  /** Channel `k` of a float triple. */
  function ColorChannel(c: Color, k: int): real {
    if k == 0 then c.r else if k == 1 then c.g else c.b
  }

  /** `ImageBuffer.clamp`: round half to even, then clamp into `[0, maxValue]`. */
  function Clamp(value: real, maxValue: int): (r: Byte)
    requires maxValue <= 255
    ensures 0 <= r && (maxValue >= 0 ==> r <= maxValue)
    ensures 0 <= RoundHalfEven(value) <= maxValue ==> r == RoundHalfEven(value)
  {
    Max(0, Min(maxValue, RoundHalfEven(value)))
  }

  /** Clamping never reverses the order of two values. */
  lemma ClampMonotone(x: real, y: real, maxValue: int)
    requires x <= y && maxValue <= 255
    ensures Clamp(x, maxValue) <= Clamp(y, maxValue)
  {
    RoundMonotone(x, y);
  }

  /** Luminance `0.2126 R + 0.7152 G + 0.0722 B` truncated by `int()`, in exact
      rational arithmetic. */
  function Luminance(r: Byte, g: Byte, b: Byte): (l: Byte)
    ensures Min(r, Min(g, b)) <= l <= Max(r, Max(g, b))
    ensures r == g == b ==> l == r
  {
    (2126 * r + 7152 * g + 722 * b) / 10000
  }

  /** `ImageBuffer._offset`: index of the red byte of pixel `(x, y)`. */
  function Offset(x: int, y: int, width: int): int {
    (y * width + x) * 3
  }

  lemma OffsetBounds(x: int, y: int, width: nat, height: nat)
    requires 0 <= x < width && 0 <= y < height
    ensures 0 <= Offset(x, y, width) && Offset(x, y, width) + 2 < width * height * 3
    ensures Offset(x, y, width) % 3 == 0
  {
    assert y * width + x < height * width by {
      assert y * width <= (height - 1) * width;
    }
  }

  /** The pixel whose red byte sits at `base`. */
  function PixelAtIndex(s: seq<Byte>, base: int): Pixel
    requires 0 <= base && base + 2 < |s|
  {
    Pixel(s[base], s[base + 1], s[base + 2])
  }

  /** `width * height` pixels of colour `c`. */
  function Fill(pixels: nat, c: Pixel): (s: seq<Byte>)
    requires IsBytePixel(c)
    ensures |s| == pixels * 3
  {
    if pixels == 0 then [] else Fill(pixels - 1, c) + [c.r, c.g, c.b]
  }

  /** Pixel `k` of a filled buffer is the fill colour. */
  lemma {:induction false} FillAt(pixels: nat, c: Pixel, k: nat)
    requires IsBytePixel(c) && k < pixels
    ensures 3 * k + 2 < |Fill(pixels, c)|
    ensures PixelAtIndex(Fill(pixels, c), 3 * k) == c
  {
    if k < pixels - 1 {
      FillAt(pixels - 1, c, k);
      var prefix := Fill(pixels - 1, c);
      assert Fill(pixels, c) == prefix + [c.r, c.g, c.b];
      assert Fill(pixels, c)[3 * k] == prefix[3 * k];
      assert Fill(pixels, c)[3 * k + 1] == prefix[3 * k + 1];
      assert Fill(pixels, c)[3 * k + 2] == prefix[3 * k + 2];
    }
  }

  /** Every pixel of a filled buffer reads back as the fill colour. */
  lemma FilledPixelAt(width: nat, height: nat, c: Pixel, x: int, y: int)
    requires IsBytePixel(c)
    requires 0 <= x < width && 0 <= y < height
    ensures Offset(x, y, width) + 2 < |Fill(width * height, c)|
    ensures PixelAtIndex(Fill(width * height, c), Offset(x, y, width)) == c
  {
    OffsetBounds(x, y, width, height);
    var k := y * width + x;
    assert k < width * height by {
      assert y * width <= (height - 1) * width;
    }
    FillAt(width * height, c, k);
  }

  /** The bytes `from_pixels` collects from a pixel list. */
  function Flatten(pixels: seq<Pixel>): (s: seq<int>)
    ensures |s| == |pixels| * 3
  {
    if pixels == [] then []
    else Flatten(pixels[..|pixels| - 1]) + [pixels[|pixels| - 1].r, pixels[|pixels| - 1].g, pixels[|pixels| - 1].b]
  }

  lemma {:induction false} FlattenAt(pixels: seq<Pixel>, k: int, j: int)
    requires 0 <= k < |pixels| && 0 <= j < 3
    ensures 3 * k + j < |Flatten(pixels)|
    ensures Flatten(pixels)[3 * k + j] == Channel(pixels[k], j)
  {
    if k < |pixels| - 1 {
      FlattenAt(pixels[..|pixels| - 1], k, j);
      assert pixels[..|pixels| - 1][k] == pixels[k];
    }
  }

  /** The clamped bytes of one mapped pixel. */
  function ClampedPixel(c: Color, maxValue: int): seq<Byte>
    requires maxValue <= 255
  {
    [Clamp(c.r, maxValue), Clamp(c.g, maxValue), Clamp(c.b, maxValue)]
  }

  /** Every pixel mapped independently by `f`, each channel clamped. */
  function MapPixels(s: seq<Byte>, f: (Byte, Byte, Byte) -> Color, maxValue: int): (t: seq<Byte>)
    requires |s| % 3 == 0 && maxValue <= 255
    ensures |t| == |s|
  {
    if |s| == 0 then []
    else
      var b := |s| - 3;
      MapPixels(s[..b], f, maxValue) + ClampedPixel(f(s[b], s[b + 1], s[b + 2]), maxValue)
  }

  /** Mapping the first `k + 1` pixels maps the first `k`, then pixel `k`. */
  lemma MapPixelsPrefix(s: seq<Byte>, f: (Byte, Byte, Byte) -> Color, maxValue: int, k: nat)
    requires maxValue <= 255 && 3 * k + 3 <= |s|
    ensures MapPixels(s[..3 * k + 3], f, maxValue)
      == MapPixels(s[..3 * k], f, maxValue) + ClampedPixel(f(s[3 * k], s[3 * k + 1], s[3 * k + 2]), maxValue)
  {
    assert s[..3 * k + 3][..3 * k] == s[..3 * k];
  }

  /** Pixel `k` of the mapped bytes is `f` of pixel `k`, each channel clamped. */
  lemma {:induction false} MapPixelsAt(s: seq<Byte>, f: (Byte, Byte, Byte) -> Color, maxValue: int, k: nat)
    requires |s| % 3 == 0 && maxValue <= 255 && 3 * k + 2 < |s|
    ensures var c := f(s[3 * k], s[3 * k + 1], s[3 * k + 2]); var t := MapPixels(s, f, maxValue);
      && t[3 * k] == Clamp(c.r, maxValue)
      && t[3 * k + 1] == Clamp(c.g, maxValue)
      && t[3 * k + 2] == Clamp(c.b, maxValue)
    decreases |s|
  {
    var b := |s| - 3;
    var prefix, last := MapPixels(s[..b], f, maxValue), ClampedPixel(f(s[b], s[b + 1], s[b + 2]), maxValue);
    assert MapPixels(s, f, maxValue) == prefix + last;
    if 3 * k < b {
      MapPixelsAt(s[..b], f, maxValue, k);
      assert s[..b][3 * k] == s[3 * k] && s[..b][3 * k + 1] == s[3 * k + 1] && s[..b][3 * k + 2] == s[3 * k + 2];
    }
  }

  class ImageBuffer {
    const width: nat
    const height: nat
    const maxValue: int
    const data: array<Byte>

    /** The invariant the factory methods establish: the byte count matches the
        dimensions, and clamped values fit in a byte. */
    ghost predicate Valid() {
      data.Length == width * height * 3 && maxValue <= 255
    }

    predicate InBounds(x: int, y: int) {
      0 <= x < width && 0 <= y < height
    }

    /** The dataclass constructor: stores its arguments and checks nothing. */
    constructor (width: nat, height: nat, maxValue: int, data: array<Byte>)
      ensures this.width == width && this.height == height
      ensures this.maxValue == maxValue && this.data == data
    {
      this.width := width;
      this.height := height;
      this.maxValue := maxValue;
      this.data := data;
    }

    /** `from_dimensions`: a `width` x `height` buffer filled with `color`
        (black when absent). */
    static method FromDimensions(width: int, height: int, color: Option<Pixel>, maxValue: int)
      returns (r: Result<ImageBuffer>)
      requires maxValue <= 255
      ensures (width <= 0 || height <= 0) ==> r == Err(ValueError)
      ensures r.Err? ==> r.error == ValueError
      ensures width > 0 && height > 0 ==>
        (r.Ok? <==> IsBytePixel(if color.Some? then color.value else Black))
      ensures r.Ok? ==>
        && fresh(r.value) && fresh(r.value.data) && r.value.Valid()
        && r.value.width == width && r.value.height == height && r.value.maxValue == maxValue
        && r.value.data[..] == Fill(width * height, if color.Some? then color.value else Black)
    {
      if width <= 0 || height <= 0 {
        return Err(ValueError);
      }
      var c := if color.Some? then color.value else Black;
      if !IsBytePixel(c) {
        return Err(ValueError);
      }
      var n := width * height * 3;
      ghost var pixels := width * height;
      assert n == 3 * pixels;
      var d := new Byte[n];
      var i := 0;
      ghost var p := 0;
      while i < n
        invariant 0 <= p <= pixels && i == 3 * p
        invariant d[..i] == Fill(p, c)
      {
        StorePixel(d, i, c.r, c.g, c.b);
        i, p := i + 3, p + 1;
      }
      assert d[..] == d[..n];
      var img := new ImageBuffer(width, height, maxValue, d);
      r := Ok(img);
    }

    /** `from_pixels`: fails unless every channel is a byte and exactly
        `width * height` pixels are given. */
    static method FromPixels(width: nat, height: nat, pixels: seq<Pixel>, maxValue: int)
      returns (r: Result<ImageBuffer>)
      requires maxValue <= 255
      ensures r.Err? <==> (exists k :: 0 <= k < |pixels| && !IsBytePixel(pixels[k])) || |pixels| != width * height
      ensures r.Err? ==> r.error == ValueError
      ensures r.Ok? ==>
        && fresh(r.value) && fresh(r.value.data) && r.value.Valid()
        && r.value.width == width && r.value.height == height && r.value.maxValue == maxValue
        && r.value.data[..] == Flatten(pixels)
    {
      var d: seq<Byte> := [];
      var k := 0;
      while k < |pixels|
        invariant 0 <= k <= |pixels|
        invariant forall j :: 0 <= j < k ==> IsBytePixel(pixels[j])
        invariant d == Flatten(pixels[..k])
      {
        var p := pixels[k];
        if !IsBytePixel(p) {
          return Err(ValueError);
        }
        assert pixels[..k + 1][..k] == pixels[..k];
        d := d + [p.r, p.g, p.b];
        k := k + 1;
      }
      assert pixels[..k] == pixels;
      if |d| != width * height * 3 {
        return Err(ValueError);
      }
      var a := new Byte[|d|](i requires 0 <= i < |d| => d[i]);
      var img := new ImageBuffer(width, height, maxValue, a);
      r := Ok(img);
    }

    /** `copy`: an equal buffer with its own byte array. */
    method Copy() returns (c: ImageBuffer)
      requires Valid()
      ensures fresh(c) && fresh(c.data) && c.Valid()
      ensures c.width == width && c.height == height && c.maxValue == maxValue
      ensures c.data[..] == data[..]
    {
      var d := new Byte[data.Length](i requires 0 <= i < data.Length reads data => data[i]);
      c := new ImageBuffer(width, height, maxValue, d);
    }

    /** `get_pixel`: the pixel at `(x, y)`, or `IndexError` outside the buffer. */
    function GetPixel(x: int, y: int): (r: Result<Pixel>)
      requires Valid()
      reads data
      ensures r.Err? <==> !InBounds(x, y)
      ensures r.Err? ==> r.error == IndexError
      ensures r.Ok? ==> IsBytePixel(r.value)
      ensures r.Ok? ==>
        && Offset(x, y, width) + 2 < data.Length
        && r.value == Pixel(data[Offset(x, y, width)], data[Offset(x, y, width) + 1], data[Offset(x, y, width) + 2])
    {
      if !InBounds(x, y) then Err(IndexError)
      else
        OffsetBounds(x, y, width, height);
        var i := Offset(x, y, width);
        Ok(Pixel(data[i], data[i + 1], data[i + 2]))
    }

    /** `set_pixel`: stores the clamped colour at `(x, y)`; nothing else changes. */
    method SetPixel(x: int, y: int, color: Color) returns (r: Result<()>)
      requires Valid()
      modifies data
      ensures Valid()
      ensures r.Err? <==> !InBounds(x, y)
      ensures r.Err? ==> r.error == IndexError && data[..] == old(data[..])
      ensures r.Ok? ==>
        var i := Offset(x, y, width);
        0 <= i && i + 2 < data.Length &&
        data[..] == old(data[..])[i := Clamp(color.r, maxValue)]
                                 [i + 1 := Clamp(color.g, maxValue)]
                                 [i + 2 := Clamp(color.b, maxValue)]
      ensures r.Ok? ==>
        GetPixel(x, y) == Ok(Pixel(Clamp(color.r, maxValue), Clamp(color.g, maxValue), Clamp(color.b, maxValue)))
    {
      if !InBounds(x, y) {
        return Err(IndexError);
      }
      OffsetBounds(x, y, width, height);
      var i := Offset(x, y, width);
      data[i] := Clamp(color.r, maxValue);
      data[i + 1] := Clamp(color.g, maxValue);
      data[i + 2] := Clamp(color.b, maxValue);
      r := Ok(());
    }

    /** `apply_point_operation`: a new buffer in which every pixel is `f` of the
        old pixel, each channel clamped. */
    method ApplyPointOperation(f: (Byte, Byte, Byte) -> Color) returns (r: ImageBuffer)
      requires Valid()
      ensures fresh(r) && fresh(r.data) && r.Valid()
      ensures r.width == width && r.height == height && r.maxValue == maxValue
      ensures r.data[..] == MapPixels(data[..], f, maxValue)
    {
      var n := data.Length;
      ghost var q := width * height;
      assert n == 3 * q;
      var nd := new Byte[n];
      var i := 0;
      ghost var p := 0;
      while i < n
        invariant 0 <= p <= q && i == 3 * p
        invariant nd[..i] == MapPixels(data[..i], f, maxValue)
      {
        assert i + 3 <= n;
        var c := f(data[i], data[i + 1], data[i + 2]);
        StorePixel(nd, i, Clamp(c.r, maxValue), Clamp(c.g, maxValue), Clamp(c.b, maxValue));
        MapPixelsPrefix(data[..], f, maxValue, p);
        i, p := i + 3, p + 1;
      }
      assert data[..n] == data[..] && nd[..n] == nd[..];
      r := new ImageBuffer(width, height, maxValue, nd);
    }
  }

  /** Writes the three bytes of one pixel, starting at byte `i`. */
  method StorePixel(dst: array<Byte>, i: nat, red: Byte, green: Byte, blue: Byte)
    requires i + 3 <= dst.Length
    modifies dst
    ensures dst[..i + 3] == old(dst[..i]) + [red, green, blue]
    ensures dst[i + 3..] == old(dst[i + 3..])
  {
    dst[i], dst[i + 1], dst[i + 2] := red, green, blue;
  }

  /** A valid buffer holds whole pixels: three bytes for each of its
      `width * height` pixels. */
  lemma ValidLength(img: ImageBuffer)
    requires img.Valid()
    ensures img.data.Length == 3 * (img.width * img.height) && img.data.Length % 3 == 0
  {
  }

  /** `b` has the width, height and channel depth of `a` and is valid. */
  ghost predicate SameShape(b: ImageBuffer, a: ImageBuffer) {
    b.Valid() && b.width == a.width && b.height == a.height && b.maxValue == a.maxValue
  }

  /** A buffer that `from_dimensions` filled reads back its colour everywhere. */
  lemma FromDimensionsReadsBack(img: ImageBuffer, c: Pixel, x: int, y: int)
    requires img.Valid() && IsBytePixel(c)
    requires img.data[..] == Fill(img.width * img.height, c)
    requires img.InBounds(x, y)
    ensures img.GetPixel(x, y) == Ok(c)
  {
    FilledPixelAt(img.width, img.height, c, x, y);
    var o := Offset(x, y, img.width);
    assert img.data[o] == img.data[..][o];
    assert img.data[o + 1] == img.data[..][o + 1];
    assert img.data[o + 2] == img.data[..][o + 2];
  }
}
