/** Point operations: per-byte scalar arithmetic, per-channel scaling and the
    two grayscale conversions (src/operations.py). Each returns a new buffer
    of the same shape. */
module Operations {
  import opened Common
  import opened ImageBuffers

  /** `_scalar_point_op`: `func` applied to every byte independently, clamped. */
  method ScalarPointOp(img: ImageBuffer, func: real -> real) returns (r: ImageBuffer)
    requires img.Valid()
    ensures fresh(r) && fresh(r.data) && SameShape(r, img)
    ensures forall i :: 0 <= i < r.data.Length ==> r.data[i] == Clamp(func(img.data[i] as real), img.maxValue)
  {
    var n := img.data.Length;
    var nd := new Byte[n];
    var i := 0;
    while i < n
      invariant 0 <= i <= n
      invariant forall j :: 0 <= j < i ==> nd[j] == Clamp(func(img.data[j] as real), img.maxValue)
    {
      nd[i] := Clamp(func(img.data[i] as real), img.maxValue);
      i := i + 1;
    }
    r := new ImageBuffer(img.width, img.height, img.maxValue, nd);
  }

  function AddFn(value: real): real -> real { c => c + value }

  function SubtractFn(value: real): real -> real { c => c - value }

  function MultiplyFn(factor: real): real -> real { c => Product(c, factor) }

  function Product(c: real, factor: real): real { c * factor }

  /** One channel value multiplied by a factor. */
  function Scaled(v: Byte, factor: real): real { Product(v as real, factor) }

  function DivideFn(divisor: real): real -> real { c => if divisor == 0.0 then 0.0 else c / divisor }

  /** `add_constant`. */
  method AddConstant(img: ImageBuffer, value: real) returns (r: ImageBuffer)
    requires img.Valid()
    ensures fresh(r) && fresh(r.data) && SameShape(r, img)
    ensures forall i :: 0 <= i < r.data.Length ==> r.data[i] == Clamp(img.data[i] as real + value, img.maxValue)
  {
    r := ScalarPointOp(img, AddFn(value));
  }

  /** `subtract_constant`. */
  method SubtractConstant(img: ImageBuffer, value: real) returns (r: ImageBuffer)
    requires img.Valid()
    ensures fresh(r) && fresh(r.data) && SameShape(r, img)
    ensures forall i :: 0 <= i < r.data.Length ==> r.data[i] == Clamp(img.data[i] as real - value, img.maxValue)
  {
    r := ScalarPointOp(img, SubtractFn(value));
  }

  /** `multiply`. */
  method Multiply(img: ImageBuffer, factor: real) returns (r: ImageBuffer)
    requires img.Valid()
    ensures fresh(r) && fresh(r.data) && SameShape(r, img)
    ensures forall i :: 0 <= i < r.data.Length ==> r.data[i] == Clamp(Scaled(img.data[i], factor), img.maxValue)
  {
    r := ScalarPointOp(img, MultiplyFn(factor));
  }

  /** `divide`: `ZeroDivisionError` for a zero divisor. */
  method Divide(img: ImageBuffer, divisor: real) returns (r: Result<ImageBuffer>)
    requires img.Valid()
    ensures r.Err? <==> divisor == 0.0
    ensures r.Err? ==> r.error == ZeroDivisionError
    ensures r.Ok? ==> fresh(r.value) && fresh(r.value.data) && SameShape(r.value, img)
    ensures r.Ok? ==> forall i :: 0 <= i < r.value.data.Length ==>
      r.value.data[i] == Clamp(img.data[i] as real / divisor, img.maxValue)
  {
    if divisor == 0.0 {
      return Err(ZeroDivisionError);
    }
    var b := ScalarPointOp(img, DivideFn(divisor));
    r := Ok(b);
  }

  /** `change_brightness` is `add_constant` under another name. */
  method ChangeBrightness(img: ImageBuffer, delta: real) returns (r: ImageBuffer)
    requires img.Valid()
    ensures fresh(r) && fresh(r.data) && SameShape(r, img)
    ensures forall i :: 0 <= i < r.data.Length ==> r.data[i] == Clamp(img.data[i] as real + delta, img.maxValue)
  {
    r := AddConstant(img, delta);
  }

  /** Adding 0 or multiplying by 1 keeps every byte that is already within
      `[0, maxValue]`. */
  lemma NeutralOperationsKeepBytes(b: Byte, maxValue: int)
    requires b <= maxValue <= 255
    ensures Clamp(b as real + 0.0, maxValue) == b
    ensures Clamp(b as real * 1.0, maxValue) == b
  {
    RoundOfInteger(b);
  }

  /** The per-pixel function `linear_color_scale` applies. */
  function ScaleFn(scaleR: real, scaleG: real, scaleB: real): (Byte, Byte, Byte) -> Color {
    (r: Byte, g: Byte, b: Byte) => Color(Scaled(r, scaleR), Scaled(g, scaleG), Scaled(b, scaleB))
  }

  /** `linear_color_scale`: each channel multiplied by its own factor, each
      clamped independently. */
  method LinearColorScale(img: ImageBuffer, scaleR: real, scaleG: real, scaleB: real) returns (r: ImageBuffer)
    requires img.Valid()
    ensures fresh(r) && fresh(r.data) && SameShape(r, img)
    ensures r.data[..] == MapPixels(img.data[..], ScaleFn(scaleR, scaleG, scaleB), img.maxValue)
  {
    var n := img.data.Length;
    ghost var q := img.width * img.height;
    assert n == 3 * q;
    ghost var f := ScaleFn(scaleR, scaleG, scaleB);
    var nd := new Byte[n];
    var i := 0;
    ghost var p := 0;
    while i < n
      invariant 0 <= p <= q && i == 3 * p
      invariant nd[..i] == MapPixels(img.data[..i], f, img.maxValue)
    {
      assert i + 3 <= n;
      MapPixelsPrefix(img.data[..], f, img.maxValue, p);
      var red := Clamp(Scaled(img.data[i], scaleR), img.maxValue);
      var green := Clamp(Scaled(img.data[i + 1], scaleG), img.maxValue);
      var blue := Clamp(Scaled(img.data[i + 2], scaleB), img.maxValue);
      StorePixel(nd, i, red, green, blue);
      i, p := i + 3, p + 1;
    }
    assert img.data[..n] == img.data[..] && nd[..n] == nd[..];
    r := new ImageBuffer(img.width, img.height, img.maxValue, nd);
  }

  /** Channel by channel: red scaled by `scaleR`, green by `scaleG`, blue by
      `scaleB`, each clamped on its own. */
  lemma LinearColorScaleAt(s: seq<Byte>, scaleR: real, scaleG: real, scaleB: real, maxValue: int, k: nat)
    requires |s| % 3 == 0 && maxValue <= 255 && 3 * k + 2 < |s|
    ensures var t := MapPixels(s, ScaleFn(scaleR, scaleG, scaleB), maxValue);
      && t[3 * k] == Clamp(Scaled(s[3 * k], scaleR), maxValue)
      && t[3 * k + 1] == Clamp(Scaled(s[3 * k + 1], scaleG), maxValue)
      && t[3 * k + 2] == Clamp(Scaled(s[3 * k + 2], scaleB), maxValue)
  {
    MapPixelsAt(s, ScaleFn(scaleR, scaleG, scaleB), maxValue, k);
  }

  /** The per-pixel function of `grayscale_average`: `int((r + g + b) / 3)`. */
  function AverageFn(r: Byte, g: Byte, b: Byte): Color {
    var v := Trunc((r + g + b) as real / 3.0) as real;
    Color(v, v, v)
  }

  /** `int((r + g + b) / 3)` in integer terms. */
  function AverageLevel(r: Byte, g: Byte, b: Byte): Byte { (r + g + b) / 3 }

  /** The per-pixel function of `grayscale_luminance`. */
  function LuminanceFn(r: Byte, g: Byte, b: Byte): Color {
    var v := Luminance(r, g, b) as real;
    Color(v, v, v)
  }

  /** `int(x / 3)` on a non-negative integer is floor division by 3. */
  lemma TruncThird(x: nat)
    ensures Trunc(x as real / 3.0) == x / 3
  {
    var q := x / 3;
    assert (q as real) * 3.0 <= x as real < (q as real) * 3.0 + 3.0;
    assert q as real <= x as real / 3.0 < q as real + 1.0;
  }

  /** The float triple `grayscale_average` produces is the integer mean, three
      times. */
  lemma AveragePixel(r: Byte, g: Byte, b: Byte)
    ensures var v := AverageLevel(r, g, b) as real; AverageFn(r, g, b) == Color(v, v, v)
  {
    TruncThird(r as int + g as int + b as int);
  }

  /** Three equal channels per pixel, each derived from that pixel by `v`. */
  ghost predicate GrayWith(s: seq<Byte>, t: seq<Byte>, maxValue: int, v: (Byte, Byte, Byte) -> Byte)
    requires |s| % 3 == 0 && |t| == |s| && maxValue <= 255
  {
    forall k :: 0 <= k < |s| / 3 ==>
      var g := Clamp(v(s[3 * k], s[3 * k + 1], s[3 * k + 2]) as real, maxValue);
      t[3 * k] == g && t[3 * k + 1] == g && t[3 * k + 2] == g
  }

  /** `grayscale_average` sets all three channels of a pixel to the floor of
      their mean. */
  lemma AverageGray(s: seq<Byte>, maxValue: int)
    requires |s| % 3 == 0 && maxValue <= 255
    ensures GrayWith(s, MapPixels(s, AverageFn, maxValue), maxValue, AverageLevel)
  {
    forall k | 0 <= k < |s| / 3
      ensures var g := Clamp(AverageLevel(s[3 * k], s[3 * k + 1], s[3 * k + 2]) as real, maxValue);
              var t := MapPixels(s, AverageFn, maxValue);
              t[3 * k] == g && t[3 * k + 1] == g && t[3 * k + 2] == g
    {
      MapPixelsAt(s, AverageFn, maxValue, k);
      AveragePixel(s[3 * k], s[3 * k + 1], s[3 * k + 2]);
    }
  }

  /** `grayscale_luminance` sets all three channels of a pixel to its
      truncated luminance. */
  lemma LuminanceGray(s: seq<Byte>, maxValue: int)
    requires |s| % 3 == 0 && maxValue <= 255
    ensures GrayWith(s, MapPixels(s, LuminanceFn, maxValue), maxValue, Luminance)
  {
    forall k | 0 <= k < |s| / 3
      ensures var g := Clamp(Luminance(s[3 * k], s[3 * k + 1], s[3 * k + 2]) as real, maxValue);
              var t := MapPixels(s, LuminanceFn, maxValue);
              t[3 * k] == g && t[3 * k + 1] == g && t[3 * k + 2] == g
    {
      MapPixelsAt(s, LuminanceFn, maxValue, k);
    }
  }

  /** `grayscale_average`: every channel becomes `floor((r + g + b) / 3)`. */
  method GrayscaleAverage(img: ImageBuffer) returns (r: ImageBuffer)
    requires img.Valid()
    ensures fresh(r) && fresh(r.data) && SameShape(r, img)
    ensures GrayWith(img.data[..], r.data[..], img.maxValue, AverageLevel)
  {
    r := img.ApplyPointOperation(AverageFn);
    ValidLength(img);
    AverageGray(img.data[..], img.maxValue);
  }

  /** `grayscale_luminance`: every channel becomes the truncated luminance. */
  method GrayscaleLuminance(img: ImageBuffer) returns (r: ImageBuffer)
    requires img.Valid()
    ensures fresh(r) && fresh(r.data) && SameShape(r, img)
    ensures GrayWith(img.data[..], r.data[..], img.maxValue, Luminance)
  {
    r := img.ApplyPointOperation(LuminanceFn);
    ValidLength(img);
    LuminanceGray(img.data[..], img.maxValue);
  }
}
