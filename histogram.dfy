/** Histograms, linear stretch and equalisation (src/histogram.py). */
module Histogram {
  import opened Common
  import opened ImageBuffers

  // ---------------------------------------------------------------------
  // Counting

  /** Number of elements of `xs` equal to `v`. */
  function Count(xs: seq<Byte>, v: int): nat {
    if xs == [] then 0
    else Count(xs[..|xs| - 1], v) + (if xs[|xs| - 1] == v then 1 else 0)
  }

  /** Sum of a list of counts. */
  function Sum(h: seq<nat>): nat {
    if h == [] then 0 else Sum(h[..|h| - 1]) + h[|h| - 1]
  }

  /** The 256 bins of the samples `xs`: bin `v` counts the samples equal to `v`. */
  function Bins(xs: seq<Byte>): (h: seq<nat>)
    ensures |h| == 256
  {
    seq(256, v requires 0 <= v < 256 => Count(xs, v))
  }

  lemma {:induction false} SumSplit(a: seq<nat>, b: seq<nat>)
    ensures Sum(a + b) == Sum(a) + Sum(b)
  {
    if b != [] {
      assert (a + b)[..|a + b| - 1] == a + b[..|b| - 1];
      SumSplit(a, b[..|b| - 1]);
    } else {
      assert a + b == a;
    }
  }

  /** Adding one to bin `v` adds one to the total. */
  lemma SumIncrement(h: seq<nat>, v: int)
    requires 0 <= v < |h|
    ensures Sum(h[v := h[v] + 1]) == Sum(h) + 1
  {
    var h' := h[v := h[v] + 1];
    assert h == h[..v] + [h[v]] + h[v + 1..];
    assert h' == h[..v] + [h[v] + 1] + h[v + 1..];
    SumSplit(h[..v] + [h[v]], h[v + 1..]);
    SumSplit(h[..v], [h[v]]);
    SumSplit(h[..v] + [h[v] + 1], h[v + 1..]);
    SumSplit(h[..v], [h[v] + 1]);
  }

  /** The bins of `xs` add up to the number of samples. */
  lemma {:induction false} BinsTotal(xs: seq<Byte>)
    ensures Sum(Bins(xs)) == |xs|
  {
    if xs == [] {
      assert Bins(xs) == seq(256, v => 0);
      AllZeroSum(Bins(xs));
    } else {
      var p := xs[..|xs| - 1];
      var b := xs[|xs| - 1];
      BinsTotal(p);
      assert Bins(xs) == Bins(p)[b := Bins(p)[b] + 1];
      SumIncrement(Bins(p), b);
    }
  }

  lemma {:induction false} AllZeroSum(h: seq<nat>)
    requires forall i :: 0 <= i < |h| ==> h[i] == 0
    ensures Sum(h) == 0
  {
    if h != [] {
      AllZeroSum(h[..|h| - 1]);
    }
  }

  /** A positive total has an occupied bin. */
  lemma {:induction false} PositiveSumOccupied(h: seq<nat>)
    requires Sum(h) > 0
    ensures exists i :: 0 <= i < |h| && h[i] > 0
  {
    if h[|h| - 1] == 0 {
      PositiveSumOccupied(h[..|h| - 1]);
      var i :| 0 <= i < |h| - 1 && h[..|h| - 1][i] > 0;
      assert h[i] > 0;
    }
  }

  /** The samples of channel `c` (0 = R, 1 = G, 2 = B), one per pixel. */
  function Samples(s: seq<Byte>, c: int): (xs: seq<Byte>)
    requires |s| % 3 == 0 && 0 <= c < 3
    ensures |xs| == |s| / 3
  {
    seq(|s| / 3, k requires 0 <= k < |s| / 3 => s[3 * k + c])
  }

  /** The truncated luminance of every pixel. */
  function LuminanceSamples(s: seq<Byte>): (xs: seq<Byte>)
    requires |s| % 3 == 0
    ensures |xs| == |s| / 3
  {
    seq(|s| / 3, k requires 0 <= k < |s| / 3 => Luminance(s[3 * k], s[3 * k + 1], s[3 * k + 2]))
  }

  // ---------------------------------------------------------------------
  // compute_histogram, compute_histogram_grayscale

  /** Counting one more sample raises the count of its own value by one. */
  lemma CountsStep(xs: seq<Byte>, k: nat)
    requires k < |xs|
    ensures forall v {:trigger Count(xs[..k + 1], v)} ::
      Count(xs[..k + 1], v) == Count(xs[..k], v) + (if xs[k] == v then 1 else 0)
  {
    assert xs[..k + 1][..k] == xs[..k];
  }

  /** `compute_histogram`: bin `v` counts the pixels whose channel `channel`
      equals `v`; the bins add up to the pixel count. */
  method ComputeHistogram(img: ImageBuffer, channel: int) returns (hist: seq<nat>)
    requires img.Valid() && 0 <= channel < 3
    ensures hist == Bins(Samples(img.data[..], channel))
    ensures Sum(hist) == img.width * img.height
  {
    ghost var xs := Samples(img.data[..], channel);
    var h := new nat[256](_ => 0);
    var n := img.data.Length;
    var i := channel;
    ghost var k := 0;
    while i < n
      invariant i == 3 * k + channel && 0 <= k <= n / 3
      invariant forall v :: 0 <= v < 256 ==> h[v] == Count(xs[..k], v)
    {
      assert xs[k] == img.data[i];
      CountsStep(xs, k);
      h[img.data[i]] := h[img.data[i]] + 1;
      i := i + 3;
      k := k + 1;
    }
    assert xs[..k] == xs;
    hist := h[..];
    assert hist == Bins(xs);
    BinsTotal(xs);
  }

  /** `compute_histogram_grayscale`: bin `v` counts the pixels whose truncated
      luminance is `v`; the bins add up to the pixel count. */
  method ComputeHistogramGrayscale(img: ImageBuffer) returns (hist: seq<nat>)
    requires img.Valid()
    ensures hist == Bins(LuminanceSamples(img.data[..]))
    ensures Sum(hist) == img.width * img.height
  {
    ghost var xs := LuminanceSamples(img.data[..]);
    var h := new nat[256](_ => 0);
    var n := img.data.Length;
    var i := 0;
    ghost var k := 0;
    while i < n
      invariant i == 3 * k && 0 <= k <= n / 3
      invariant forall v :: 0 <= v < 256 ==> h[v] == Count(xs[..k], v)
    {
      var gray := Luminance(img.data[i], img.data[i + 1], img.data[i + 2]);
      assert xs[k] == gray;
      CountsStep(xs, k);
      h[gray] := h[gray] + 1;
      i := i + 3;
      k := k + 1;
    }
    assert xs[..k] == xs;
    hist := h[..];
    assert hist == Bins(xs);
    BinsTotal(xs);
  }

  // ---------------------------------------------------------------------
  // Per-channel rewriting shared by stretch and equalisation

  /** `s` with every sample of channel `c` replaced by the clamped `level` of
      it; the two other channels are kept. */
  function RemapChannel(s: seq<Byte>, c: int, level: Byte -> int, maxValue: int): (t: seq<Byte>)
    requires |s| % 3 == 0 && 0 <= c < 3 && maxValue <= 255
    ensures |t| == |s|
  {
    seq(|s|, j requires 0 <= j < |s| => if j % 3 == c then Clamp(level(s[j]) as real, maxValue) else s[j])
  }

  /** The loop `new_data[i] = image.clamp(f(image.data[i]))` over channel `c`:
      the bytes of channel `c` are rewritten, the others left as they were. */
  method MapChannel(src: array<Byte>, dst: array<Byte>, c: int, level: Byte -> int, maxValue: int)
    requires src != dst && src.Length == dst.Length && 0 <= c < 3 && maxValue <= 255
    modifies dst
    ensures forall j :: 0 <= j < dst.Length ==>
      dst[j] == if j % 3 == c then Clamp(level(src[j]) as real, maxValue) else old(dst[j])
  {
    var n := src.Length;
    var i := c;
    while i < n
      invariant c <= i && i % 3 == c
      invariant forall j :: 0 <= j < n ==>
        dst[j] == if j % 3 == c && j < i then Clamp(level(src[j]) as real, maxValue) else old(dst[j])
    {
      dst[i] := Clamp(level(src[i]) as real, maxValue);
      i := i + 3;
    }
  }

  /** The loop `for ch != channel: new_data[i] = image.data[i]`: the bytes of
      the two other channels are copied, those of `channel` left as they were. */
  method CopyOtherChannels(src: array<Byte>, dst: array<Byte>, channel: int)
    requires src != dst && src.Length == dst.Length && 0 <= channel < 3
    modifies dst
    ensures forall j :: 0 <= j < dst.Length ==> dst[j] == if j % 3 != channel then src[j] else old(dst[j])
  {
    var n := src.Length;
    for ch := 0 to 3
      invariant forall j :: 0 <= j < n ==>
        dst[j] == if j % 3 != channel && j % 3 < ch then src[j] else old(dst[j])
    {
      if ch != channel {
        var i := ch;
        while i < n
          invariant ch <= i && i % 3 == ch
          invariant forall j :: 0 <= j < n ==>
            dst[j] == if j % 3 != channel && (j % 3 < ch || (j % 3 == ch && j < i)) then src[j] else old(dst[j])
        {
          dst[i] := src[i];
          i := i + 3;
        }
      }
    }
  }

  /** Builds the buffer `_stretch_single_channel` and `_equalize_single_channel`
      return: channel `c` remapped through `level`, the others copied. */
  method RemapIntoNew(img: ImageBuffer, c: int, level: Byte -> int) returns (r: ImageBuffer)
    requires img.Valid() && 0 <= c < 3
    ensures fresh(r) && fresh(r.data) && SameShape(r, img)
    ensures r.data[..] == RemapChannel(img.data[..], c, level, img.maxValue)
  {
    var nd := new Byte[img.data.Length];
    MapChannel(img.data, nd, c, level, img.maxValue);
    CopyOtherChannels(img.data, nd, c);
    r := new ImageBuffer(img.width, img.height, img.maxValue, nd);
    assert nd[..] == RemapChannel(img.data[..], c, level, img.maxValue);
  }

  // ---------------------------------------------------------------------
  // Occupied levels

  /** The lowest index `>= from` whose bin is non-zero. */
  function LowestFrom(h: seq<nat>, from: nat): (r: Option<nat>)
    requires from <= |h|
    ensures r.Some? ==> from <= r.value < |h| && h[r.value] > 0 && forall j :: from <= j < r.value ==> h[j] == 0
    ensures r.None? ==> forall j :: from <= j < |h| ==> h[j] == 0
    decreases |h| - from
  {
    if from == |h| then None
    else if h[from] > 0 then Some(from)
    else LowestFrom(h, from + 1)
  }

  /** The highest index `< upto` whose bin is non-zero. */
  function HighestBelow(h: seq<nat>, upto: nat): (r: Option<nat>)
    requires upto <= |h|
    ensures r.Some? ==> r.value < upto && h[r.value] > 0 && forall j :: r.value < j < upto ==> h[j] == 0
    ensures r.None? ==> forall j :: 0 <= j < upto ==> h[j] == 0
  {
    if upto == 0 then None
    else if h[upto - 1] > 0 then Some(upto - 1)
    else HighestBelow(h, upto - 1)
  }

  /** `min_val` of the stretch: the lowest occupied level, 0 when none. */
  function MinLevel(h: seq<nat>): int { match LowestFrom(h, 0) case Some(i) => i case None => 0 }

  /** `max_val` of the stretch: the highest occupied level, 255 when none. */
  function MaxLevel(h: seq<nat>): int { match HighestBelow(h, |h|) case Some(i) => i case None => 255 }

  // ---------------------------------------------------------------------
  // The affine rescale shared by the stretch and the equalisation table

  /** `int((x - low) * (255 / (high - low)))`. */
  function Rescale(x: int, low: int, high: int): int
    requires low < high
  {
    Trunc((x - low) as real * (255.0 / (high - low) as real))
  }

  /** The rescale never reverses the order of two values. */
  lemma RescaleMonotone(x: int, y: int, low: int, high: int)
    requires low < high && x <= y
    ensures Rescale(x, low, high) <= Rescale(y, low, high)
  {
    var d := (high - low) as real;
    RescaleAsQuotient(x, low, high);
    RescaleAsQuotient(y, low, high);
    DivideMonotone(((x - low) * 255) as real, ((y - low) * 255) as real, d);
    TruncMonotone(((x - low) * 255) as real / d, ((y - low) * 255) as real / d);
  }

  /** `(x - low) * (255 / (high - low))` is the integer `(x - low) * 255`
      divided by `high - low`. */
  lemma RescaleAsQuotient(x: int, low: int, high: int)
    requires low < high
    ensures Rescale(x, low, high) == Trunc(((x - low) * 255) as real / (high - low) as real)
  {
    var a, d := (x - low) as real, (high - low) as real;
    assert a * (255.0 / d) == (a * 255.0) / d;
    assert ((x - low) * 255) as real == a * 255.0;
  }

  /** The rescale sends `low` to 0 and `high` to 255, hence `[low, high]`
      into `[0, 255]`. */
  lemma RescaleEnds(x: int, low: int, high: int)
    requires low <= x <= high && low < high
    ensures Rescale(low, low, high) == 0
    ensures Rescale(high, low, high) == 255
    ensures 0 <= Rescale(x, low, high) <= 255
  {
    var scale := 255.0 / (high - low) as real;
    assert (high - low) as real * scale == 255.0;
    assert (low - low) as real * scale == 0.0;
    TruncOfInteger(255);
    TruncOfInteger(0);
    RescaleMonotone(low, x, low, high);
    RescaleMonotone(x, high, low, high);
  }

  // ---------------------------------------------------------------------
  // Linear stretch

  function StretchFn(lo: int, hi: int): Byte -> int
    requires lo < hi
  {
    (v: Byte) => Rescale(v, lo, hi)
  }

  /** `_stretch_single_channel` on the bytes of a buffer. */
  function StretchChannel(s: seq<Byte>, c: int, maxValue: int): (t: seq<Byte>)
    requires |s| % 3 == 0 && 0 <= c < 3 && maxValue <= 255
    ensures |t| == |s|
  {
    var h := Bins(Samples(s, c));
    var lo := MinLevel(h);
    var hi := MaxLevel(h);
    if lo >= hi then s else RemapChannel(s, c, StretchFn(lo, hi), maxValue)
  }

  /** `_stretch_single_channel`. */
  method StretchSingleChannel(img: ImageBuffer, channel: int) returns (r: ImageBuffer)
    requires img.Valid() && 0 <= channel < 3
    ensures fresh(r) && fresh(r.data) && SameShape(r, img)
    ensures r.data[..] == StretchChannel(img.data[..], channel, img.maxValue)
  {
    var hist := ComputeHistogram(img, channel);
    var minVal := 0;
    var maxVal := 255;
    var i := 0;
    while i < 256
      invariant 0 <= i <= 256
      invariant LowestFrom(hist, 0) == LowestFrom(hist, i)
      invariant minVal == 0
    {
      if hist[i] > 0 {
        minVal := i;
        break;
      }
      i := i + 1;
    }
    assert minVal == MinLevel(hist);
    i := 255;
    while i >= 0
      invariant -1 <= i <= 255
      invariant HighestBelow(hist, 256) == HighestBelow(hist, i + 1)
      invariant maxVal == 255
    {
      if hist[i] > 0 {
        maxVal := i;
        break;
      }
      i := i - 1;
    }
    assert maxVal == MaxLevel(hist);
    if minVal >= maxVal {
      r := img.Copy();
      return;
    }
    r := RemapIntoNew(img, channel, StretchFn(minVal, maxVal));
  }

  /** `histogram_stretch`: one channel when `channel` is 0, 1 or 2; otherwise
      R, then G, then B in sequence. */
  method HistogramStretch(img: ImageBuffer, channel: Option<int>) returns (r: ImageBuffer)
    requires img.Valid()
    ensures fresh(r) && fresh(r.data) && SameShape(r, img)
    ensures r.data[..] ==
      if channel.Some? && 0 <= channel.value < 3 then StretchChannel(img.data[..], channel.value, img.maxValue)
      else StretchChannel(StretchChannel(StretchChannel(img.data[..], 0, img.maxValue), 1, img.maxValue), 2, img.maxValue)
  {
    if channel.Some? && 0 <= channel.value < 3 {
      r := StretchSingleChannel(img, channel.value);
      return;
    }
    r := img.Copy();
    r := StretchSingleChannel(r, 0);
    r := StretchSingleChannel(r, 1);
    r := StretchSingleChannel(r, 2);
  }

  /** The samples of channel `c` lie between its lowest and highest occupied
      levels. */
  lemma SamplesWithinLevels(s: seq<Byte>, c: int, j: int)
    requires |s| % 3 == 0 && 0 <= c < 3 && 0 <= j < |s| && j % 3 == c
    ensures MinLevel(Bins(Samples(s, c))) <= s[j] <= MaxLevel(Bins(Samples(s, c)))
  {
    var xs := Samples(s, c);
    var h := Bins(xs);
    assert j == 3 * (j / 3) + c;
    assert xs[j / 3] == s[j];
    CountPositive(xs, j / 3);
    assert h[s[j]] > 0;
  }

  lemma {:induction false} CountPositive(xs: seq<Byte>, k: int)
    requires 0 <= k < |xs|
    ensures Count(xs, xs[k]) > 0
  {
    if k < |xs| - 1 {
      assert xs[..|xs| - 1][k] == xs[k];
      CountPositive(xs[..|xs| - 1], k);
    }
  }

  /** After a single-channel stretch, the samples of the channel at the lowest
      occupied level become 0 and those at the highest become 255, clamped to
      `maxValue`; the order of samples is kept; the two other channels are
      copied byte for byte. */
  lemma StretchProperties(s: seq<Byte>, c: int, maxValue: int)
    requires |s| % 3 == 0 && 0 <= c < 3 && maxValue <= 255
    requires MinLevel(Bins(Samples(s, c))) < MaxLevel(Bins(Samples(s, c)))
    ensures var t, h := StretchChannel(s, c, maxValue), Bins(Samples(s, c));
      forall j :: 0 <= j < |s| ==>
        && (j % 3 != c ==> t[j] == s[j])
        && (j % 3 == c && s[j] == MinLevel(h) ==> t[j] == Clamp(0.0, maxValue))
        && (j % 3 == c && s[j] == MaxLevel(h) ==> t[j] == Clamp(255.0, maxValue))
    ensures var t := StretchChannel(s, c, maxValue);
      forall i, j :: 0 <= i < |s| && 0 <= j < |s| && i % 3 == c && j % 3 == c && s[i] <= s[j] ==> t[i] <= t[j]
  {
    var h := Bins(Samples(s, c));
    var lo, hi := MinLevel(h), MaxLevel(h);
    var t := StretchChannel(s, c, maxValue);
    RescaleEnds(lo, lo, hi);
    forall i, j | 0 <= i < |s| && 0 <= j < |s| && i % 3 == c && j % 3 == c && s[i] <= s[j] ensures t[i] <= t[j] {
      RescaleMonotone(s[i], s[j], lo, hi);
      ClampMonotone(Rescale(s[i], lo, hi) as real, Rescale(s[j], lo, hi) as real, maxValue);
    }
  }

  /** A channel that already spans `[0, 255]` comes out of the stretch
      unchanged when `maxValue` is 255 (so stretching twice is stretching
      once). */
  lemma StretchFullRangeIdentity(s: seq<Byte>, c: int)
    requires |s| % 3 == 0 && 0 <= c < 3
    requires MinLevel(Bins(Samples(s, c))) == 0 && MaxLevel(Bins(Samples(s, c))) == 255
    ensures StretchChannel(s, c, 255) == s
  {
    var t := StretchChannel(s, c, 255);
    forall j | 0 <= j < |s| ensures t[j] == s[j] {
      var v := s[j];
      assert (v - 0) as real * (255.0 / (255 - 0) as real) == v as real;
      TruncOfInteger(v);
      RoundOfInteger(v);
    }
  }

  // ---------------------------------------------------------------------
  // Equalisation

  /** The cumulative histogram: `cdf[i]` is the sum of bins `0..i`. */
  function Cdf(h: seq<nat>): (cdf: seq<nat>)
    requires |h| == 256
    ensures |cdf| == 256
  {
    seq(256, i requires 0 <= i < 256 => Sum(h[..i + 1]))
  }

  /** `min(cdf[i] for i if hist[i] > 0)`; `None` when no bin is occupied. */
  function MinOccupiedFrom(h: seq<nat>, cdf: seq<nat>, from: nat): Option<nat>
    requires |h| == |cdf| && from <= |h|
    decreases |h| - from
  {
    if from == |h| then None
    else
      var rest := MinOccupiedFrom(h, cdf, from + 1);
      if h[from] == 0 then rest
      else if rest.Some? && rest.value < cdf[from] then rest
      else Some(cdf[from])
  }

  /** The lookup table `lut[i] = int((cdf[i] - cdf_min) * scale)`. */
  function Lut(cdf: seq<nat>, cdfMin: int, total: int): (lut: seq<int>)
    requires |cdf| == 256 && cdfMin < total
    ensures |lut| == 256
  {
    seq(256, i requires 0 <= i < 256 => Rescale(cdf[i], cdfMin, total))
  }

  function LutFn(lut: seq<int>): Byte -> int {
    (v: Byte) => if v < |lut| then lut[v] else 0
  }

  /** `_equalize_single_channel` on the bytes of a buffer with `total` pixels. */
  function EqualizeChannel(s: seq<Byte>, c: int, total: int, maxValue: int): (t: seq<Byte>)
    requires |s| % 3 == 0 && 0 <= c < 3 && maxValue <= 255
    ensures |t| == |s|
  {
    if total == 0 then s
    else
      var h := Bins(Samples(s, c));
      var cdf := Cdf(h);
      match MinOccupiedFrom(h, cdf, 0)
      // No occupied level: Python's min() of an empty sequence; a valid
      // buffer with a positive pixel count always has an occupied level
      // (EqualizeOccupied).
      case None => s
      case Some(cdfMin) =>
        if cdfMin >= total then s
        else RemapChannel(s, c, LutFn(Lut(cdf, cdfMin, total)), maxValue)
  }

  /** `_equalize_single_channel`. */
  method EqualizeSingleChannel(img: ImageBuffer, channel: int) returns (r: ImageBuffer)
    requires img.Valid() && 0 <= channel < 3
    ensures fresh(r) && fresh(r.data) && SameShape(r, img)
    ensures r.data[..] == EqualizeChannel(img.data[..], channel, img.width * img.height, img.maxValue)
  {
    var hist := ComputeHistogram(img, channel);
    var totalPixels := img.width * img.height;
    if totalPixels == 0 {
      r := img.Copy();
      return;
    }
    var cdf := CumulativeHistogram(hist);
    EqualizeOccupied(hist, totalPixels);
    var cdfMin := MinOccupiedFrom(hist, cdf, 0).value;
    if cdfMin >= totalPixels {
      r := img.Copy();
      return;
    }
    var lut := LookupTable(cdf, cdfMin, totalPixels);
    r := RemapIntoNew(img, channel, LutFn(lut));
  }

  /** The loop `cdf[i] = cdf[i - 1] + hist[i]`. */
  method CumulativeHistogram(hist: seq<nat>) returns (cdf: seq<nat>)
    requires |hist| == 256
    ensures cdf == Cdf(hist)
  {
    var a := new nat[256](_ => 0);
    a[0] := hist[0];
    assert hist[..1] == [hist[0]];
    for i := 1 to 256
      invariant forall j :: 0 <= j < i ==> a[j] == Sum(hist[..j + 1])
    {
      a[i] := a[i - 1] + hist[i];
      assert hist[..i + 1][..i] == hist[..i];
    }
    cdf := a[..];
  }

  /** The loop `lut[i] = int((cdf[i] - cdf_min) * scale)`. */
  method LookupTable(cdf: seq<nat>, cdfMin: int, total: int) returns (lut: seq<int>)
    requires |cdf| == 256 && cdfMin < total
    ensures lut == Lut(cdf, cdfMin, total)
  {
    var a := new int[256];
    for i := 0 to 256
      invariant forall j :: 0 <= j < i ==> a[j] == Rescale(cdf[j], cdfMin, total)
    {
      a[i] := Rescale(cdf[i], cdfMin, total);
    }
    lut := a[..];
  }

  /** With a positive pixel count the histogram has an occupied level, so
      `cdf_min` exists. */
  lemma EqualizeOccupied(h: seq<nat>, total: int)
    requires |h| == 256 && Sum(h) == total > 0
    ensures MinOccupiedFrom(h, Cdf(h), 0).Some?
  {
    PositiveSumOccupied(h);
    MinOccupiedExists(h, Cdf(h), 0);
  }

  lemma {:induction false} MinOccupiedExists(h: seq<nat>, cdf: seq<nat>, from: nat)
    requires |h| == |cdf| && from <= |h|
    requires exists i :: from <= i < |h| && h[i] > 0
    ensures MinOccupiedFrom(h, cdf, from).Some?
    decreases |h| - from
  {
    if h[from] == 0 {
      MinOccupiedExists(h, cdf, from + 1);
    }
  }

  /** `histogram_equalization`: one channel when `channel` is 0, 1 or 2;
      otherwise R, then G, then B in sequence. */
  method HistogramEqualization(img: ImageBuffer, channel: Option<int>) returns (r: ImageBuffer)
    requires img.Valid()
    ensures fresh(r) && fresh(r.data) && SameShape(r, img)
    ensures r.data[..] ==
      var t, m := img.width * img.height, img.maxValue;
      if channel.Some? && 0 <= channel.value < 3 then EqualizeChannel(img.data[..], channel.value, t, m)
      else EqualizeChannel(EqualizeChannel(EqualizeChannel(img.data[..], 0, t, m), 1, t, m), 2, t, m)
  {
    if channel.Some? && 0 <= channel.value < 3 {
      r := EqualizeSingleChannel(img, channel.value);
      return;
    }
    r := img.Copy();
    r := EqualizeSingleChannel(r, 0);
    r := EqualizeSingleChannel(r, 1);
    r := EqualizeSingleChannel(r, 2);
  }

  /** The cumulative histogram never decreases, and its last entry is the
      total count. */
  lemma CdfProperties(h: seq<nat>, i: int, j: int)
    requires |h| == 256 && 0 <= i <= j < 256
    ensures Cdf(h)[i] <= Cdf(h)[j]
    ensures Cdf(h)[255] == Sum(h)
  {
    assert h[..j + 1] == h[..i + 1] + h[i + 1..j + 1];
    SumSplit(h[..i + 1], h[i + 1..j + 1]);
    CdfLast(h);
  }

  lemma CdfLast(h: seq<nat>)
    requires |h| == 256
    ensures Cdf(h)[255] == Sum(h)
  {
    assert h[..256] == h;
  }

  /** Because the CDF never decreases, `cdf_min` is the CDF at the lowest
      occupied level. */
  lemma {:induction false} CdfMinAtLowest(h: seq<nat>, cdf: seq<nat>, from: nat)
    requires |h| == |cdf| && from <= |h|
    requires forall i, j :: 0 <= i <= j < |cdf| ==> cdf[i] <= cdf[j]
    ensures LowestFrom(h, from).Some? ==> MinOccupiedFrom(h, cdf, from) == Some(cdf[LowestFrom(h, from).value])
    ensures LowestFrom(h, from).None? ==> MinOccupiedFrom(h, cdf, from).None?
    decreases |h| - from
  {
    if from < |h| {
      CdfMinAtLowest(h, cdf, from + 1);
    }
  }

  /** The lookup table never decreases, and from the lowest occupied level up
      it lies within `[0, 255]`, reaching 255 at the top. */
  lemma LutProperties(h: seq<nat>, cdfMin: int, i: int, j: int)
    requires |h| == 256 && LowestFrom(h, 0).Some?
    requires MinOccupiedFrom(h, Cdf(h), 0) == Some(cdfMin) && cdfMin < Sum(h)
    requires 0 <= i <= j < 256
    ensures Lut(Cdf(h), cdfMin, Sum(h))[i] <= Lut(Cdf(h), cdfMin, Sum(h))[j]
    ensures LowestFrom(h, 0).value <= i ==> 0 <= Lut(Cdf(h), cdfMin, Sum(h))[i] <= 255
    ensures Lut(Cdf(h), cdfMin, Sum(h))[255] == 255
  {
    var cdf := Cdf(h);
    forall a, b | 0 <= a <= b < 256 ensures cdf[a] <= cdf[b] { CdfProperties(h, a, b); }
    CdfProperties(h, i, j);
    RescaleMonotone(cdf[i], cdf[j], cdfMin, Sum(h));
    CdfMinAtLowest(h, cdf, 0);
    var l := LowestFrom(h, 0).value;
    CdfProperties(h, l, 255);
    RescaleEnds(cdf[255], cdfMin, Sum(h));
    if l <= i {
      CdfProperties(h, l, i);
      CdfProperties(h, i, 255);
      RescaleEnds(cdf[i], cdfMin, Sum(h));
    }
  }

  /** Equalisation returns the bytes unchanged for an empty buffer, or when
      `cdf_min` reaches the pixel count (a single occupied level). */
  lemma EqualizeDegenerate(s: seq<Byte>, c: int, maxValue: int)
    requires |s| % 3 == 0 && 0 <= c < 3 && maxValue <= 255
    requires var h := Bins(Samples(s, c));
      |s| == 0 || (MinOccupiedFrom(h, Cdf(h), 0).Some? && MinOccupiedFrom(h, Cdf(h), 0).value >= |s| / 3)
    ensures EqualizeChannel(s, c, |s| / 3, maxValue) == s
  {
  }

  /** A single-channel equalisation copies the two other channels byte for
      byte and maps equal samples to equal bytes, brighter samples to bytes
      that are not darker. */
  lemma EqualizeProperties(s: seq<Byte>, c: int, maxValue: int)
    requires |s| % 3 == 0 && 0 <= c < 3 && maxValue <= 255
    ensures var t := EqualizeChannel(s, c, |s| / 3, maxValue);
      forall j :: 0 <= j < |s| && j % 3 != c ==> t[j] == s[j]
    ensures var t := EqualizeChannel(s, c, |s| / 3, maxValue);
      forall i, j :: 0 <= i < |s| && 0 <= j < |s| && i % 3 == c && j % 3 == c && s[i] <= s[j] ==> t[i] <= t[j]
  {
    var h := Bins(Samples(s, c));
    var cdf := Cdf(h);
    var t := EqualizeChannel(s, c, |s| / 3, maxValue);
    var m := MinOccupiedFrom(h, cdf, 0);
    if |s| / 3 != 0 && m.Some? && m.value < |s| / 3 {
      var lut := Lut(cdf, m.value, |s| / 3);
      BinsTotal(Samples(s, c));
      forall i, j | 0 <= i < |s| && 0 <= j < |s| && i % 3 == c && j % 3 == c && s[i] <= s[j] ensures t[i] <= t[j] {
        CdfMinAtLowestOccupied(h, s, c, i);
        LutProperties(h, m.value, s[i], s[j]);
        ClampMonotone(lut[s[i]] as real, lut[s[j]] as real, maxValue);
      }
    }
  }

  lemma CdfMinAtLowestOccupied(h: seq<nat>, s: seq<Byte>, c: int, i: int)
    requires |s| % 3 == 0 && 0 <= c < 3 && 0 <= i < |s| && i % 3 == c && h == Bins(Samples(s, c))
    ensures LowestFrom(h, 0).Some?
  {
    var xs := Samples(s, c);
    assert i == 3 * (i / 3) + c;
    assert xs[i / 3] == s[i];
    CountPositive(xs, i / 3);
    assert h[s[i]] > 0;
  }
}
