/** Binarization: a manual threshold and the automatic threshold searches
    built on the grayscale histogram (src/binarization.py). Every method ends
    in `threshold_manual`, so each is specified by the threshold it picks. */
module Binarization {
  import opened Common
  import opened ImageBuffers
  import opened Histogram

  // ---------------------------------------------------------------------
  // threshold_manual

  /** The binary level of a luminance: white at or above the threshold. */
  function Level(gray: int, threshold: int): Byte {
    if gray >= threshold then 255 else 0
  }

  /** Every pixel of `s` replaced by three copies of the binary level of its
      truncated luminance. */
  function Binarized(s: seq<Byte>, threshold: int): (t: seq<Byte>)
    requires |s| % 3 == 0
    ensures |t| == |s|
  {
    if |s| == 0 then []
    else
      var b := |s| - 3;
      var v := Level(Luminance(s[b], s[b + 1], s[b + 2]), threshold);
      Binarized(s[..b], threshold) + [v, v, v]
  }

  /** Binarizing the first `k + 1` pixels binarizes the first `k`, then pixel `k`. */
  lemma BinarizedPrefix(s: seq<Byte>, threshold: int, k: nat)
    requires 3 * k + 3 <= |s|
    ensures var v := Level(Luminance(s[3 * k], s[3 * k + 1], s[3 * k + 2]), threshold);
      Binarized(s[..3 * k + 3], threshold) == Binarized(s[..3 * k], threshold) + [v, v, v]
  {
    assert s[..3 * k + 3][..3 * k] == s[..3 * k];
  }

  /** Pixel `k` of a binarized image has three equal channels, 255 exactly when
      its luminance reaches the threshold and 0 otherwise. */
  lemma {:induction false} BinarizedAt(s: seq<Byte>, threshold: int, k: nat)
    requires |s| % 3 == 0 && 3 * k + 2 < |s|
    ensures var t := Binarized(s, threshold); var gray := Luminance(s[3 * k], s[3 * k + 1], s[3 * k + 2]);
      && t[3 * k] == t[3 * k + 1] == t[3 * k + 2]
      && (t[3 * k] == 255 <==> gray >= threshold)
      && (t[3 * k] == 0 <==> gray < threshold)
    decreases |s|
  {
    var b := |s| - 3;
    if 3 * k < b {
      BinarizedAt(s[..b], threshold, k);
      assert s[..b][3 * k] == s[3 * k] && s[..b][3 * k + 1] == s[3 * k + 1] && s[..b][3 * k + 2] == s[3 * k + 2];
    }
  }

  /** Threshold 0 turns every pixel white. */
  lemma {:induction false} BinarizedAtZero(s: seq<Byte>)
    requires |s| % 3 == 0
    ensures Binarized(s, 0) == seq(|s|, _ => 255)
    decreases |s|
  {
    if |s| > 0 {
      var b := |s| - 3;
      BinarizedAtZero(s[..b]);
      assert seq(b, _ => 255) + [255, 255, 255] == seq(|s|, _ => 255);
    }
  }

  /** Raising the threshold never turns a black byte white. */
  lemma {:induction false} BinarizedAntitone(s: seq<Byte>, low: int, high: int)
    requires |s| % 3 == 0 && low <= high
    ensures forall i :: 0 <= i < |s| ==> Binarized(s, high)[i] <= Binarized(s, low)[i]
    decreases |s|
  {
    if |s| > 0 {
      var b := |s| - 3;
      BinarizedAntitone(s[..b], low, high);
    }
  }

  /** `threshold_manual`: rejects a threshold outside `[0, 255]`, otherwise a
      new buffer of the same shape holding the binarized pixels. */
  method ThresholdManual(img: ImageBuffer, threshold: int) returns (r: Result<ImageBuffer>)
    requires img.Valid()
    ensures r.Err? <==> !(0 <= threshold <= 255)
    ensures r.Err? ==> r.error == ValueError
    ensures r.Ok? ==> fresh(r.value) && fresh(r.value.data) && SameShape(r.value, img)
    ensures r.Ok? ==> r.value.data[..] == Binarized(img.data[..], threshold)
  {
    if !(0 <= threshold <= 255) {
      return Err(ValueError);
    }
    var n := img.data.Length;
    ghost var q := img.width * img.height;
    assert n == 3 * q;
    var nd := new Byte[n];
    var i := 0;
    ghost var p := 0;
    while i < n
      invariant 0 <= p <= q && i == 3 * p
      invariant nd[..i] == Binarized(img.data[..i], threshold)
    {
      var gray := Luminance(img.data[i], img.data[i + 1], img.data[i + 2]);
      var value: Byte := if gray >= threshold then 255 else 0;
      StorePixel(nd, i, value, value, value);
      BinarizedPrefix(img.data[..], threshold, p);
      i, p := i + 3, p + 1;
    }
    assert img.data[..n] == img.data[..] && nd[..n] == nd[..];
    var out := new ImageBuffer(img.width, img.height, img.maxValue, nd);
    r := Ok(out);
  }

  // ---------------------------------------------------------------------
  // threshold_percent_black

  /** `int(total * percent / 100)`: how many pixels are meant to turn black. */
  function PercentTarget(total: nat, percent: real): (target: int)
    ensures 0.0 <= percent <= 100.0 ==> 0 <= target <= total
  {
    var amount := total as real * percent / 100.0;
    TargetBounds(total, percent, amount);
    Trunc(amount)
  }

  lemma TargetBounds(total: nat, percent: real, amount: real)
    requires amount == total as real * percent / 100.0
    ensures 0.0 <= percent <= 100.0 ==> 0 <= Trunc(amount) <= total
  {
    if 0.0 <= percent <= 100.0 {
      PercentOf(total as real, percent);
      TruncAtMost(amount, total);
    }
  }

  /** `int()` keeps a float between zero and `n` between zero and `n`. */
  lemma TruncAtMost(x: real, n: nat)
    requires 0.0 <= x <= n as real
    ensures 0 <= Trunc(x) <= n
  {
  }

  /** A percentage of a non-negative amount lies between zero and the amount. */
  lemma PercentOf(total: real, percent: real)
    requires 0.0 <= total
    ensures 0.0 <= percent <= 100.0 ==> 0.0 <= total * percent / 100.0 <= total
  {
    if 0.0 <= percent <= 100.0 {
      assert total * percent <= total * 100.0 by {
        assert total * (100.0 - percent) >= 0.0;
      }
    }
  }

  /** The number of samples at levels `0..j`. */
  function Cumulative(h: seq<nat>, j: int): nat
    requires 0 <= j < |h|
  {
    Sum(h[..j + 1])
  }

  /** The cumulative count at the last level is the total. */
  lemma CumulativeTotal(h: seq<nat>)
    requires |h| > 0
    ensures Cumulative(h, |h| - 1) == Sum(h)
  {
    assert h[..|h| - 1 + 1] == h;
  }

  /** The first level from `i` on whose cumulative count reaches `target`; 0
      when no level does. */
  function FirstReaching(h: seq<nat>, target: int, i: nat): Byte
    requires |h| == 256 && i <= 256
    decreases 256 - i
  {
    if i == 256 then 0
    else if Cumulative(h, i) >= target then i
    else FirstReaching(h, target, i + 1)
  }

  /** The threshold `threshold_percent_black` picks for the luminance samples `xs`. */
  function PercentThreshold(xs: seq<Byte>, percent: real): Byte {
    FirstReaching(Bins(xs), PercentTarget(|xs|, percent), 0)
  }

  /** A scan from `i` that has not yet reached `target` stops at the first
      level that does. */
  lemma {:induction false} FirstReachingFrom(h: seq<nat>, target: int, i: nat)
    requires |h| == 256 && i <= 256 && target <= Sum(h)
    requires forall j :: 0 <= j < i ==> Cumulative(h, j) < target
    ensures var t := FirstReaching(h, target, i);
      && i <= t && Cumulative(h, t) >= target
      && forall j :: 0 <= j < t ==> Cumulative(h, j) < target
    decreases 256 - i
  {
    if i == 256 {
      CumulativeTotal(h);
      assert false;
    } else if Cumulative(h, i) < target {
      FirstReachingFrom(h, target, i + 1);
    }
  }

  /** The percent-black threshold is the first level whose cumulative count
      reaches the target, so fewer than the target pixels lie strictly below it. */
  lemma PercentThresholdFirst(xs: seq<Byte>, percent: real)
    requires 0.0 <= percent <= 100.0
    ensures var h, t, target := Bins(xs), PercentThreshold(xs, percent), PercentTarget(|xs|, percent);
      && Cumulative(h, t) >= target
      && (forall j :: 0 <= j < t ==> Cumulative(h, j) < target)
      && (t > 0 ==> Sum(h[..t]) < target)
  {
    var h, target := Bins(xs), PercentTarget(|xs|, percent);
    BinsTotal(xs);
    FirstReachingFrom(h, target, 0);
    var t := PercentThreshold(xs, percent);
    if t > 0 {
      assert Cumulative(h, t - 1) < target;
      assert h[..(t - 1) + 1] == h[..t];
    }
  }

  /** A zero percentage gives threshold 0, which turns every pixel white. */
  lemma PercentZero(xs: seq<Byte>)
    ensures PercentThreshold(xs, 0.0) == 0
  {
    assert PercentTarget(|xs|, 0.0) == 0;
  }

  /** A larger percentage never lowers the threshold. */
  lemma PercentMonotone(xs: seq<Byte>, low: real, high: real)
    requires 0.0 <= low <= high <= 100.0
    ensures PercentThreshold(xs, low) <= PercentThreshold(xs, high)
  {
    TargetMonotone(|xs|, low, high);
    PercentThresholdFirst(xs, low);
    PercentThresholdFirst(xs, high);
  }

  /** A larger percentage never lowers the target. */
  lemma TargetMonotone(total: nat, low: real, high: real)
    requires 0.0 <= low <= high
    ensures PercentTarget(total, low) <= PercentTarget(total, high)
  {
    var a, b := total as real * low / 100.0, total as real * high / 100.0;
    PercentOrder(total as real, low, high, a, b);
    TruncMonotone(a, b);
  }

  lemma PercentOrder(total: real, low: real, high: real, a: real, b: real)
    requires 0.0 <= total && low <= high
    requires a == total * low / 100.0 && b == total * high / 100.0
    ensures a <= b
  {
    assert total * (high - low) >= 0.0;
  }

  /** The scan of `threshold_percent_black`: the cumulative count grows level
      by level until it reaches `target`. */
  method PercentLevel(hist: seq<nat>, target: int) returns (threshold: Byte)
    requires |hist| == 256
    ensures threshold == FirstReaching(hist, target, 0)
  {
    var cumulative := 0;
    threshold := 0;
    var i := 0;
    while i < 256
      invariant 0 <= i <= 256 && cumulative == Sum(hist[..i])
      invariant FirstReaching(hist, target, 0) == FirstReaching(hist, target, i)
    {
      assert hist[..i + 1][..i] == hist[..i];
      assert Cumulative(hist, i) == cumulative + hist[i];
      cumulative := cumulative + hist[i];
      if cumulative >= target {
        threshold := i;
        break;
      }
      i := i + 1;
    }
  }

  /** `threshold_percent_black`: rejects a percentage outside `[0, 100]`,
      otherwise binarizes at the percent-black threshold. */
  method ThresholdPercentBlack(img: ImageBuffer, percent: real) returns (r: Result<ImageBuffer>)
    requires img.Valid()
    ensures r.Err? <==> !(0.0 <= percent <= 100.0)
    ensures r.Err? ==> r.error == ValueError
    ensures r.Ok? ==> fresh(r.value) && fresh(r.value.data) && SameShape(r.value, img)
    ensures r.Ok? ==> r.value.data[..] == Binarized(img.data[..], PercentThreshold(LuminanceSamples(img.data[..]), percent))
  {
    if !(0.0 <= percent <= 100.0) {
      return Err(ValueError);
    }
    var hist := ComputeHistogramGrayscale(img);
    var total := img.width * img.height;
    ghost var xs := LuminanceSamples(img.data[..]);
    ValidLength(img);
    assert |xs| == total;
    var target := PercentTarget(total, percent);
    var threshold := PercentLevel(hist, target);
    assert threshold == PercentThreshold(xs, percent);
    r := ThresholdManual(img, threshold);
  }

  // ---------------------------------------------------------------------
  // threshold_mean_iterative

  /** The number of samples at levels `lo <= i < hi`. */
  function CountIn(h: seq<nat>, lo: int, hi: int): nat
    requires 0 <= lo <= hi <= |h|
    decreases hi - lo
  {
    if hi == lo then 0 else CountIn(h, lo, hi - 1) + h[hi - 1]
  }

  /** The sum of the levels of the samples at levels `lo <= i < hi`. */
  function WeightIn(h: seq<nat>, lo: int, hi: int): nat
    requires 0 <= lo <= hi <= |h|
    decreases hi - lo
  {
    if hi == lo then 0 else WeightIn(h, lo, hi - 1) + (hi - 1) * h[hi - 1]
  }

  /** Counting from level 0 up to `k` adds the first `k` bins. */
  lemma {:induction false} CountPrefix(h: seq<nat>, k: nat)
    requires k <= |h|
    ensures CountIn(h, 0, k) == Sum(h[..k])
  {
    if k > 0 {
      CountPrefix(h, k - 1);
      assert h[..k][..k - 1] == h[..k - 1];
    }
  }

  /** Every sample between `lo` and `hi - 1` weighs at least `lo`. */
  lemma {:induction false} WeightLower(h: seq<nat>, lo: int, hi: int)
    requires 0 <= lo <= hi <= |h|
    ensures lo * CountIn(h, lo, hi) <= WeightIn(h, lo, hi)
    decreases hi - lo
  {
    if hi > lo {
      WeightLower(h, lo, hi - 1);
      var c, x := CountIn(h, lo, hi - 1), h[hi - 1];
      MulMonotone(lo, hi - 1, x);
      DistributeInt(lo, c, x);
    }
  }

  /** Every sample between `lo` and `hi - 1` weighs at most `hi - 1`. */
  lemma {:induction false} WeightUpper(h: seq<nat>, lo: int, hi: int)
    requires 0 <= lo <= hi <= |h|
    ensures WeightIn(h, lo, hi) <= (hi - 1) * CountIn(h, lo, hi)
    decreases hi - lo
  {
    if hi > lo {
      WeightUpper(h, lo, hi - 1);
      var c, x := CountIn(h, lo, hi - 1), h[hi - 1];
      MulMonotone(hi - 2, hi - 1, c);
      DistributeInt(hi - 1, c, x);
    }
  }

  lemma MulMonotone(a: int, b: int, c: nat)
    requires a <= b
    ensures a * c <= b * c
  {
  }

  /** A quotient of a value between `lo * c` and `hi * c` by `c > 0` lies
      between `lo` and `hi`. */
  lemma DivideBounds(a: real, c: real, lo: real, hi: real)
    requires c > 0.0 && lo * c <= a <= hi * c
    ensures lo <= a / c <= hi
  {
  }

  /** The mean level of the samples at levels `lo <= i < hi` lies in `[lo, hi - 1]`. */
  lemma MeanBounds(h: seq<nat>, lo: int, hi: int)
    requires 0 <= lo <= hi <= |h| && CountIn(h, lo, hi) > 0
    ensures lo as real <= WeightIn(h, lo, hi) as real / CountIn(h, lo, hi) as real <= (hi - 1) as real
  {
    WeightLower(h, lo, hi);
    WeightUpper(h, lo, hi);
    MeanBetween(WeightIn(h, lo, hi), CountIn(h, lo, hi), lo, hi - 1);
  }

  /** A weight between `low` and `high` times a positive count gives a mean
      between `low` and `high`. */
  lemma MeanBetween(w: int, c: int, low: int, high: int)
    requires c > 0 && low * c <= w <= high * c
    ensures low as real <= w as real / c as real <= high as real
  {
    CastProduct(low, c);
    CastProduct(high, c);
    DivideBounds(w as real, c as real, low as real, high as real);
  }

  lemma CastProduct(a: int, b: int)
    ensures a as real * b as real == (a * b) as real
  {
  }

  /** One step of the iteration: the truncated midpoint of the mean levels
      below and at-or-above `t`; it falls in `[0, 254]`. */
  function MeanSplit(h: seq<nat>, t: Byte): (next: int)
    requires |h| == 256 && CountIn(h, 0, t) > 0 && CountIn(h, t, 256) > 0
    ensures 0 <= next <= 254
  {
    var below := WeightIn(h, 0, t) as real / CountIn(h, 0, t) as real;
    var above := WeightIn(h, t, 256) as real / CountIn(h, t, 256) as real;
    MeanBounds(h, 0, t);
    MeanBounds(h, t, 256);
    Trunc((below + above) / 2.0)
  }

  /** The iteration stops at `t`: one side is empty or `t` is a fixed point. */
  predicate Settled(h: seq<nat>, t: Byte)
    requires |h| == 256
  {
    CountIn(h, 0, t) == 0 || CountIn(h, t, 256) == 0 || MeanSplit(h, t) == t
  }

  /** At most `n` steps from `t`: the final threshold and the steps taken. The
      iteration either uses all `n` steps or stops at a settled threshold. */
  function MeanIterate(h: seq<nat>, t: Byte, n: int): (r: (Byte, nat))
    requires |h| == 256
    ensures r.1 <= Max(n, 0)
    ensures r.1 < n ==> Settled(h, r.0)
    decreases n
  {
    if n <= 0 then (t, 0)
    else if CountIn(h, 0, t) == 0 || CountIn(h, t, 256) == 0 then (t, 0)
    else
      var next := MeanSplit(h, t);
      if next == t then (t, 0)
      else var r := MeanIterate(h, next, n - 1); (r.0, r.1 + 1)
  }

  /** `int(total_sum / total_pixels)`: the truncated mean level, within `[0, 255]`. */
  function MeanLevel(h: seq<nat>): (t: Byte)
    requires |h| == 256 && Sum(h) > 0
  {
    CountPrefix(h, 256);
    assert h[..256] == h;
    MeanBounds(h, 0, 256);
    Trunc(WeightIn(h, 0, 256) as real / Sum(h) as real)
  }

  /** The threshold `threshold_mean_iterative` picks for the luminance samples
      `xs`: 128 for an empty image, else the iteration from the mean level. */
  function MeanThreshold(xs: seq<Byte>, maxIterations: int): Byte {
    if |xs| == 0 then 128
    else
      BinsTotal(xs);
      MeanIterate(Bins(xs), MeanLevel(Bins(xs)), maxIterations).0
  }

  /** A settled threshold is final: the iteration takes no step from it. */
  lemma SettledFinal(h: seq<nat>, t: Byte, n: int)
    requires |h| == 256 && Settled(h, t)
    ensures MeanIterate(h, t, n) == (t, 0)
  {
  }

  /** The iterated threshold is one the loop can reach: when fewer than
      `maxIterations` steps were taken, it is settled. */
  lemma MeanThresholdSettles(xs: seq<Byte>, maxIterations: int)
    requires |xs| > 0
    ensures Sum(Bins(xs)) == |xs|
    ensures var h := Bins(xs); var r := MeanIterate(h, MeanLevel(h), maxIterations);
      && r.0 == MeanThreshold(xs, maxIterations)
      && (r.1 < maxIterations ==> Settled(Bins(xs), r.0))
  {
    BinsTotal(xs);
  }

  /** The loop of `threshold_mean_iterative` over the grayscale histogram of
      `total` pixels. */
  method MeanIterativeLevel(hist: seq<nat>, total: nat, maxIterations: int) returns (threshold: Byte)
    requires |hist| == 256 && Sum(hist) == total
    ensures total == 0 ==> threshold == 128
    ensures total > 0 ==> threshold == MeanIterate(hist, MeanLevel(hist), maxIterations).0
  {
    if total == 0 {
      return 128;
    }
    var totalSum := WeightIn(hist, 0, 256);
    var level := Trunc(totalSum as real / total as real);
    assert level == MeanLevel(hist);
    threshold := level;
    ghost var start := threshold;
    var k := 0;
    while k < maxIterations
      invariant k <= Max(maxIterations, 0)
      invariant MeanIterate(hist, start, maxIterations).0 == MeanIterate(hist, threshold, maxIterations - k).0
      decreases maxIterations - k
    {
      var countBelow := CountIn(hist, 0, threshold);
      var countAbove := CountIn(hist, threshold, 256);
      if countBelow == 0 || countAbove == 0 {
        break;
      }
      var meanBelow := WeightIn(hist, 0, threshold) as real / countBelow as real;
      var meanAbove := WeightIn(hist, threshold, 256) as real / countAbove as real;
      var next := Trunc((meanBelow + meanAbove) / 2.0);
      assert next == MeanSplit(hist, threshold);
      if next == threshold {
        break;
      }
      threshold := next;
      k := k + 1;
    }
  }

  /** `threshold_mean_iterative`: binarizes at the mean-iterative threshold, which
      always lies in `[0, 255]`, so the manual threshold never rejects it. */
  method ThresholdMeanIterative(img: ImageBuffer, maxIterations: int) returns (r: ImageBuffer)
    requires img.Valid()
    ensures fresh(r) && fresh(r.data) && SameShape(r, img)
    ensures r.data[..] == Binarized(img.data[..], MeanThreshold(LuminanceSamples(img.data[..]), maxIterations))
  {
    var hist := ComputeHistogramGrayscale(img);
    var total := img.width * img.height;
    var threshold := MeanIterativeLevel(hist, total, maxIterations);
    var b := ThresholdManual(img, threshold);
    r := b.value;
  }

  // ---------------------------------------------------------------------
  // The search of threshold_entropy, threshold_minimum_error and
  // threshold_fuzzy_minimum_error: scan t = 1..254, skip the thresholds
  // without a score, keep a threshold only when it strictly improves.

  /** `s` is strictly better than `r`: larger when maximising, smaller when
      minimising. */
  predicate Beats(s: real, r: real, maximize: bool) {
    if maximize then s > r else s < r
  }

  /** `s` improves on the best score so far; any score improves on none (the
      source starts from an infinite best). */
  predicate Improves(s: real, best: Option<real>, maximize: bool) {
    best.None? || Beats(s, best.value, maximize)
  }

  /** The scan from threshold `t` on, with the best threshold and score so far. */
  function ScanBest(score: Byte -> Option<real>, maximize: bool, t: int, best: Byte, bestScore: Option<real>): Byte
    requires 1 <= t <= 255
    decreases 255 - t
  {
    if t == 255 then best
    else match score(t)
      case None => ScanBest(score, maximize, t + 1, best, bestScore)
      case Some(s) =>
        if Improves(s, bestScore, maximize) then ScanBest(score, maximize, t + 1, t, Some(s))
        else ScanBest(score, maximize, t + 1, best, bestScore)
  }

  /** The threshold a search picks: the scan from 1 with best 128 and no score. */
  function BestThreshold(score: Byte -> Option<real>, maximize: bool): Byte {
    ScanBest(score, maximize, 1, 128, None)
  }

  /** `best` is 128 when no threshold in `1..254` has a score; otherwise it has
      a score no other threshold beats, and it beats every lower one. */
  predicate LowestBest(score: Byte -> Option<real>, maximize: bool, best: Byte) {
    if forall t: Byte :: 1 <= t <= 254 ==> score(t).None? then best == 128
    else
      && 1 <= best <= 254 && score(best).Some?
      && forall t: Byte :: 1 <= t <= 254 && score(t).Some? ==>
        && !Beats(score(t).value, score(best).value, maximize)
        && (t < best ==> Beats(score(best).value, score(t).value, maximize))
  }

  /** The scan's state is meaningful at `t`: with no score yet every threshold
      below `t` was skipped; with one, `best` is the lowest best below `t`. */
  predicate ScanState(score: Byte -> Option<real>, maximize: bool, t: int, best: Byte, bestScore: Option<real>) {
    && (bestScore.None? ==> best == 128 && forall u: Byte :: 1 <= u < t ==> score(u).None?)
    && (bestScore.Some? ==>
      && 1 <= best < t && score(best) == bestScore
      && forall u: Byte :: 1 <= u < t && score(u).Some? ==>
        && !Beats(score(u).value, bestScore.value, maximize)
        && (u < best ==> Beats(bestScore.value, score(u).value, maximize)))
  }

  /** At the end of the scan a meaningful state holds the lowest best threshold. */
  lemma ScanEnd(score: Byte -> Option<real>, maximize: bool, best: Byte, bestScore: Option<real>)
    requires ScanState(score, maximize, 255, best, bestScore)
    ensures LowestBest(score, maximize, best)
  {
    if bestScore.Some? {
      assert score(best).Some?;
    }
  }

  /** The scan from a meaningful state at `t` ends on the lowest best threshold `r`. */
  lemma {:induction false} ScanBestFrom(score: Byte -> Option<real>, maximize: bool, t: int, best: Byte, bestScore: Option<real>, r: Byte)
    requires 1 <= t <= 255 && ScanState(score, maximize, t, best, bestScore)
    requires r == ScanBest(score, maximize, t, best, bestScore)
    ensures LowestBest(score, maximize, r)
    decreases 255 - t
  {
    if t == 255 {
      ScanEnd(score, maximize, best, bestScore);
    } else {
      match score(t)
      case None =>
        ScanBestFrom(score, maximize, t + 1, best, bestScore, r);
      case Some(s) =>
        if Improves(s, bestScore, maximize) {
          ScanBestFrom(score, maximize, t + 1, t, Some(s), r);
        } else {
          ScanBestFrom(score, maximize, t + 1, best, bestScore, r);
        }
    }
  }

  /** The searches return the lowest best-scoring threshold, or 128 when none
      has a score. */
  lemma BestThresholdLowest(score: Byte -> Option<real>, maximize: bool)
    ensures LowestBest(score, maximize, BestThreshold(score, maximize))
  {
    ScanBestFrom(score, maximize, 1, 128, None, BestThreshold(score, maximize));
  }

  /** The outer loop of `threshold_entropy` and `threshold_minimum_error`. */
  method SearchBest(score: Byte -> Option<real>, maximize: bool) returns (best: Byte)
    ensures best == BestThreshold(score, maximize)
  {
    best := 128;
    var bestScore: Option<real> := None;
    var t := 1;
    while t < 255
      invariant 1 <= t <= 255
      invariant BestThreshold(score, maximize) == ScanBest(score, maximize, t, best, bestScore)
    {
      match score(t) {
        case None =>
        case Some(s) =>
          if bestScore.None? || Beats(s, bestScore.value, maximize) {
            best, bestScore := t, Some(s);
          }
      }
      t := t + 1;
    }
  }

  // ---------------------------------------------------------------------
  // threshold_entropy

  /** `sum(prob[i] for i in range(lo, hi))` with `prob[i] = h[i] / total`. */
  function ProbIn(h: seq<nat>, total: nat, lo: int, hi: int): real
    requires total > 0 && 0 <= lo <= hi <= |h|
    decreases hi - lo
  {
    if hi == lo then 0.0 else ProbIn(h, total, lo, hi - 1) + h[hi - 1] as real / total as real
  }

  /** A probability mass is the share of the samples in its range. */
  lemma {:induction false} ProbInShare(h: seq<nat>, total: nat, lo: int, hi: int)
    requires total > 0 && 0 <= lo <= hi <= |h|
    ensures ProbIn(h, total, lo, hi) == CountIn(h, lo, hi) as real / total as real
    decreases hi - lo
  {
    if hi > lo {
      ProbInShare(h, total, lo, hi - 1);
      AddQuotients(CountIn(h, lo, hi - 1) as real, h[hi - 1] as real, total as real);
    }
  }

  /** `-sum(p / mass * log2(p / mass))` over the levels `lo <= i < hi` whose
      probability `p` is positive. */
  function EntropyIn(h: seq<nat>, total: nat, mass: real, log2: real -> real, lo: int, hi: int): real
    requires total > 0 && mass != 0.0 && 0 <= lo <= hi <= |h|
    decreases hi - lo
  {
    if hi == lo then 0.0
    else
      var p := h[hi - 1] as real / total as real;
      EntropyIn(h, total, mass, log2, lo, hi - 1) - (if p > 0.0 then p / mass * log2(p / mass) else 0.0)
  }

  /** The total entropy at threshold `t`, or none when a side has no mass. */
  function EntropyScore(h: seq<nat>, total: nat, log2: real -> real, t: Byte): Option<real>
    requires |h| == 256 && total > 0
  {
    var pBg := ProbIn(h, total, 0, t);
    var pFg := ProbIn(h, total, t, 256);
    if pBg == 0.0 || pFg == 0.0 then None
    else Some(EntropyIn(h, total, pBg, log2, 0, t) + EntropyIn(h, total, pFg, log2, t, 256))
  }

  function EntropyScores(h: seq<nat>, total: nat, log2: real -> real): Byte -> Option<real>
    requires |h| == 256 && total > 0
  {
    (t: Byte) => EntropyScore(h, total, log2, t)
  }

  /** The entropy search skips `t` exactly when no sample lies below it or none
      at or above it. */
  lemma EntropySkips(h: seq<nat>, total: nat, log2: real -> real, t: Byte)
    requires |h| == 256 && total > 0
    ensures EntropyScore(h, total, log2, t).None? <==> CountIn(h, 0, t) == 0 || CountIn(h, t, 256) == 0
  {
    ProbInShare(h, total, 0, t);
    ProbInShare(h, total, t, 256);
  }

  /** The threshold `threshold_entropy` picks for the luminance samples `xs`. */
  function EntropyThreshold(xs: seq<Byte>, log2: real -> real): Byte {
    if |xs| == 0 then 128 else BestThreshold(EntropyScores(Bins(xs), |xs|, log2), true)
  }

  /** `threshold_entropy`, with the base-2 logarithm as a parameter. */
  method ThresholdEntropy(img: ImageBuffer, log2: real -> real) returns (r: ImageBuffer)
    requires img.Valid()
    ensures fresh(r) && fresh(r.data) && SameShape(r, img)
    ensures r.data[..] == Binarized(img.data[..], EntropyThreshold(LuminanceSamples(img.data[..]), log2))
  {
    var hist := ComputeHistogramGrayscale(img);
    var total := img.width * img.height;
    ghost var xs := LuminanceSamples(img.data[..]);
    ValidLength(img);
    assert |xs| == total;
    var threshold: Byte := 128;
    if total > 0 {
      threshold := SearchBest(EntropyScores(hist, total, log2), true);
    }
    assert threshold == EntropyThreshold(xs, log2);
    var b := ThresholdManual(img, threshold);
    r := b.value;
  }

  // ---------------------------------------------------------------------
  // threshold_minimum_error

  /** `sum((i - mean) ** 2 * h[i] for i in range(lo, hi))`. */
  function SquaredDeviation(h: seq<nat>, mean: real, lo: int, hi: int): real
    requires 0 <= lo <= hi <= |h|
    decreases hi - lo
  {
    if hi == lo then 0.0
    else
      var d := (hi - 1) as real - mean;
      SquaredDeviation(h, mean, lo, hi - 1) + d * d * h[hi - 1] as real
  }

  /** The minimum-error criterion at threshold `t`, with the natural logarithm
      as a parameter; none when a side is empty or has no spread. */
  function MinErrorScore(h: seq<nat>, total: nat, log: real -> real, t: Byte): Option<real>
    requires |h| == 256 && total > 0
  {
    var countBg := CountIn(h, 0, t);
    if countBg == 0 then None
    else
      var meanBg := WeightIn(h, 0, t) as real / countBg as real;
      var varianceBg := SquaredDeviation(h, meanBg, 0, t) / countBg as real;
      var countFg := CountIn(h, t, 256);
      if countFg == 0 then None
      else
        var meanFg := WeightIn(h, t, 256) as real / countFg as real;
        var varianceFg := SquaredDeviation(h, meanFg, t, 256) / countFg as real;
        if varianceBg <= 0.0 || varianceFg <= 0.0 then None
        else
          var pBg := countBg as real / total as real;
          var pFg := countFg as real / total as real;
          if pBg > 0.0 && pFg > 0.0 then
            Some(pBg * log(varianceBg) + pFg * log(varianceFg) - 2.0 * (pBg * log(pBg) + pFg * log(pFg)))
          else None
  }

  function MinErrorScores(h: seq<nat>, total: nat, log: real -> real): Byte -> Option<real>
    requires |h| == 256 && total > 0
  {
    (t: Byte) => MinErrorScore(h, total, log, t)
  }

  /** A side whose samples all sit at one level has no spread, so the
      minimum-error search skips that threshold. */
  lemma MinErrorSkipsFlatSide(h: seq<nat>, total: nat, log: real -> real, t: Byte, v: int)
    requires |h| == 256 && total > 0 && 0 <= v < t
    requires forall i :: 0 <= i < t && i != v ==> h[i] == 0
    ensures MinErrorScore(h, total, log, t).None?
  {
    var countBg := CountIn(h, 0, t);
    if countBg > 0 {
      FlatSide(h, 0, t, v);
      var meanBg := WeightIn(h, 0, t) as real / countBg as real;
      FlatMean(WeightIn(h, 0, t), countBg, v, meanBg);
      SquaredDeviationFlat(h, meanBg, 0, t, v);
      NoSpread(SquaredDeviation(h, meanBg, 0, t), countBg);
    }
  }

  /** `count` samples all at level `v` have mean `v`. */
  lemma FlatMean(weight: int, count: int, v: int, mean: real)
    requires count > 0 && weight == v * count && mean == weight as real / count as real
    ensures mean == v as real
  {
    CastProduct(v, count);
  }

  lemma NoSpread(deviation: real, count: int)
    requires deviation == 0.0 && count > 0
    ensures deviation / count as real <= 0.0
  {
  }

  /** With every sample of `lo..hi - 1` at level `v`, the count is `h[v]`
      and the weight `v * h[v]`. */
  lemma {:induction false} FlatSide(h: seq<nat>, lo: int, hi: int, v: int)
    requires 0 <= lo <= v < hi <= |h|
    requires forall i :: lo <= i < hi && i != v ==> h[i] == 0
    ensures CountIn(h, lo, hi) == h[v] && WeightIn(h, lo, hi) == v * h[v]
    decreases hi - lo
  {
    if hi - 1 > v {
      FlatSide(h, lo, hi - 1, v);
    } else {
      FlatBelow(h, lo, v);
    }
  }

  lemma {:induction false} FlatBelow(h: seq<nat>, lo: int, hi: int)
    requires 0 <= lo <= hi <= |h|
    requires forall i :: lo <= i < hi ==> h[i] == 0
    ensures CountIn(h, lo, hi) == 0 && WeightIn(h, lo, hi) == 0
    decreases hi - lo
  {
    if hi > lo {
      FlatBelow(h, lo, hi - 1);
    }
  }

  /** Samples that all sit at the mean deviate by nothing. */
  lemma {:induction false} SquaredDeviationFlat(h: seq<nat>, mean: real, lo: int, hi: int, v: int)
    requires 0 <= lo <= hi <= |h| && mean == v as real
    requires forall i :: lo <= i < hi && i != v ==> h[i] == 0
    ensures SquaredDeviation(h, mean, lo, hi) == 0.0
    decreases hi - lo
  {
    if hi > lo {
      SquaredDeviationFlat(h, mean, lo, hi - 1, v);
    }
  }

  /** The threshold `threshold_minimum_error` picks for the luminance samples `xs`. */
  function MinErrorThreshold(xs: seq<Byte>, log: real -> real): Byte {
    if |xs| == 0 then 128 else BestThreshold(MinErrorScores(Bins(xs), |xs|, log), false)
  }

  /** `threshold_minimum_error`, with the natural logarithm as a parameter. */
  method ThresholdMinimumError(img: ImageBuffer, log: real -> real) returns (r: ImageBuffer)
    requires img.Valid()
    ensures fresh(r) && fresh(r.data) && SameShape(r, img)
    ensures r.data[..] == Binarized(img.data[..], MinErrorThreshold(LuminanceSamples(img.data[..]), log))
  {
    var hist := ComputeHistogramGrayscale(img);
    var total := img.width * img.height;
    ghost var xs := LuminanceSamples(img.data[..]);
    ValidLength(img);
    assert |xs| == total;
    var threshold: Byte := 128;
    if total > 0 {
      threshold := SearchBest(MinErrorScores(hist, total, log), false);
    }
    assert threshold == MinErrorThreshold(xs, log);
    var b := ThresholdManual(img, threshold);
    r := b.value;
  }

  // ---------------------------------------------------------------------
  // threshold_fuzzy_minimum_error

  /** The background and foreground memberships of level `i` at threshold `t`. */
  function Membership(i: int, t: int): (real, real) {
    if i < t then (if t > 0 then 1.0 - i as real / t as real else 1.0, 0.0)
    else (0.0, if t < 255 then (i - t) as real / (255 - t) as real else 1.0)
  }

  /** Memberships lie in `[0, 1]`; below the threshold only the background one
      is nonzero, and it is positive; from the threshold on only the foreground
      one can be, and it is positive above the threshold. */
  lemma MembershipBounds(i: int, t: Byte)
    requires 0 <= i <= 255
    ensures var m := Membership(i, t);
      && 0.0 <= m.0 <= 1.0 && 0.0 <= m.1 <= 1.0
      && (i < t ==> m.0 > 0.0 && m.1 == 0.0)
      && (i >= t ==> m.0 == 0.0)
      && (i <= t && t < 255 ==> m.1 == 0.0)
      && (i > t ==> m.1 > 0.0)
  {
    if i < t {
      DivideBounds(i as real, t as real, 0.0, 1.0);
      DivideBelow(i as real, t as real);
    } else if t < 255 {
      DivideBounds((i - t) as real, (255 - t) as real, 0.0, 1.0);
      if i > t {
        assert (i - t) as real / (255 - t) as real > 0.0;
      }
    }
  }

  lemma DivideBelow(a: real, c: real)
    requires 0.0 <= a < c
    ensures a / c < 1.0
  {
  }

  /** The membership masses a scan over levels accumulates. */
  datatype Masses = Masses(bg: real, fg: real, weightedBg: real, weightedFg: real)

  /** The masses `m` with `count` samples of level `i` added, at memberships `mu`. */
  function AddLevel(m: Masses, i: int, mu: (real, real), count: real): Masses {
    Masses(m.bg + mu.0 * count, m.fg + mu.1 * count,
           m.weightedBg + mu.0 * i as real * count, m.weightedFg + mu.1 * i as real * count)
  }

  lemma AddLevelFields(m: Masses, i: int, mu: (real, real), count: real)
    ensures var r := AddLevel(m, i, mu, count);
      && r.bg == m.bg + mu.0 * count && r.fg == m.fg + mu.1 * count
      && r.weightedBg == m.weightedBg + mu.0 * i as real * count
      && r.weightedFg == m.weightedFg + mu.1 * i as real * count
  {
  }

  /** The masses over the levels `0 <= i < n` at threshold `t`. */
  function FuzzyMasses(h: seq<nat>, t: Byte, n: int): Masses
    requires 0 <= n <= |h|
  {
    if n == 0 then Masses(0.0, 0.0, 0.0, 0.0)
    else AddLevel(FuzzyMasses(h, t, n - 1), n - 1, Membership(n - 1, t), h[n - 1] as real)
  }

  /** The weighted squared deviation of the levels `0 <= i < n`, each from the
      mean of its own side. */
  function FuzzyError(h: seq<nat>, t: Byte, meanBg: real, meanFg: real, n: int): real
    requires 0 <= n <= |h|
  {
    if n == 0 then 0.0 else FuzzyError(h, t, meanBg, meanFg, n - 1) + FuzzyTerm(h, t, meanBg, meanFg, n - 1)
  }

  /** The share of level `i`: its membership in its own side times its
      squared distance from that side's mean, times its count. */
  function FuzzyTerm(h: seq<nat>, t: Byte, meanBg: real, meanFg: real, i: nat): real
    requires i < |h|
  {
    if i < t then var d := i as real - meanBg; Membership(i, t).0 * (d * d) * h[i] as real
    else var d := i as real - meanFg; Membership(i, t).1 * (d * d) * h[i] as real
  }

  /** The fuzzy error at threshold `t`, or none when a side has no membership mass. */
  function FuzzyScore(h: seq<nat>, total: nat, t: Byte): Option<real>
    requires |h| == 256 && total > 0
  {
    var m := FuzzyMasses(h, t, 256);
    if m.bg == 0.0 || m.fg == 0.0 then None
    else Some(FuzzyError(h, t, m.weightedBg / m.bg, m.weightedFg / m.fg, 256) / total as real)
  }

  function FuzzyScores(h: seq<nat>, total: nat): Byte -> Option<real>
    requires |h| == 256 && total > 0
  {
    (t: Byte) => FuzzyScore(h, total, t)
  }

  /** The background and foreground memberships at threshold `t`, level by level. */
  function BackgroundShare(t: Byte): int -> real {
    (i: int) => Membership(i, t).0
  }

  function ForegroundShare(t: Byte): int -> real {
    (i: int) => Membership(i, t).1
  }

  /** The mass of the levels `0 <= i < n`, level `i` weighted by `mu(i)`. */
  function Weighted(h: seq<nat>, mu: int -> real, n: int): real
    requires 0 <= n <= |h|
  {
    if n == 0 then 0.0 else Weighted(h, mu, n - 1) + mu(n - 1) * h[n - 1] as real
  }

  /** The number of samples at the levels `0 <= i < n` of positive weight. */
  function Supported(h: seq<nat>, mu: int -> real, n: int): nat
    requires 0 <= n <= |h|
  {
    if n == 0 then 0 else Supported(h, mu, n - 1) + (if mu(n - 1) > 0.0 then h[n - 1] else 0)
  }

  /** The background and foreground membership masses of the levels `0 <= i < n`. */
  function BackgroundMass(h: seq<nat>, t: Byte, n: int): real
    requires 0 <= n <= |h|
  {
    if n == 0 then 0.0 else BackgroundMass(h, t, n - 1) + Membership(n - 1, t).0 * h[n - 1] as real
  }

  function ForegroundMass(h: seq<nat>, t: Byte, n: int): real
    requires 0 <= n <= |h|
  {
    if n == 0 then 0.0 else ForegroundMass(h, t, n - 1) + Membership(n - 1, t).1 * h[n - 1] as real
  }

  /** The scan's two membership masses are the per-side masses above. */
  lemma {:induction false} MassesFields(h: seq<nat>, t: Byte, n: int)
    requires 0 <= n <= |h|
    ensures FuzzyMasses(h, t, n).bg == BackgroundMass(h, t, n)
    ensures FuzzyMasses(h, t, n).fg == ForegroundMass(h, t, n)
  {
    if n > 0 {
      MassesFields(h, t, n - 1);
      AddLevelFields(FuzzyMasses(h, t, n - 1), n - 1, Membership(n - 1, t), h[n - 1] as real);
    }
  }

  /** Each side's mass is its membership-weighted sum. */
  lemma {:induction false} SharesWeighted(h: seq<nat>, t: Byte, n: int)
    requires 0 <= n <= |h|
    ensures BackgroundMass(h, t, n) == Weighted(h, BackgroundShare(t), n)
    ensures ForegroundMass(h, t, n) == Weighted(h, ForegroundShare(t), n)
  {
    if n > 0 {
      SharesWeighted(h, t, n - 1);
      WeightedStep(h, BackgroundShare(t), n, Membership(n - 1, t).0);
      WeightedStep(h, ForegroundShare(t), n, Membership(n - 1, t).1);
    }
  }

  /** Weighing one more level, of weight `m`, adds its samples times `m`. */
  lemma WeightedStep(h: seq<nat>, mu: int -> real, n: int, m: real)
    requires 0 < n <= |h| && mu(n - 1) == m
    ensures Weighted(h, mu, n) == Weighted(h, mu, n - 1) + m * h[n - 1] as real
  {
  }

  /** With nonnegative weights, a weighted mass is nonnegative, and zero
      exactly when no sample has positive weight. */
  lemma {:induction false} WeightedZero(h: seq<nat>, mu: int -> real, n: int)
    requires 0 <= n <= |h|
    requires forall i :: 0 <= i < n ==> mu(i) >= 0.0
    ensures Weighted(h, mu, n) >= 0.0
    ensures Weighted(h, mu, n) == 0.0 <==> Supported(h, mu, n) == 0
  {
    if n > 0 {
      WeightedZero(h, mu, n - 1);
      var m := mu(n - 1);
      MassStep(Weighted(h, mu, n), Weighted(h, mu, n - 1), m, h[n - 1] as real,
        Supported(h, mu, n), Supported(h, mu, n - 1), h[n - 1]);
    }
  }

  /** The samples of positive background membership are those below `t`. */
  lemma {:induction false} BackgroundSupport(h: seq<nat>, t: Byte, n: int)
    requires 0 <= n <= |h| && n <= 256
    ensures Supported(h, BackgroundShare(t), n) == CountIn(h, 0, Min(n, t))
    ensures forall i :: 0 <= i < n ==> BackgroundShare(t)(i) >= 0.0
  {
    if n > 0 {
      BackgroundSupport(h, t, n - 1);
      MembershipBounds(n - 1, t);
      BelowCountStep(h, t, n);
    }
  }

  /** Below 255, the samples of positive foreground membership are those above `t`. */
  lemma {:induction false} ForegroundSupport(h: seq<nat>, t: Byte, n: int)
    requires 0 <= n <= |h| && n <= 256 && t < 255
    ensures Supported(h, ForegroundShare(t), n) == CountIn(h, Min(n, t + 1), n)
    ensures forall i :: 0 <= i < n ==> ForegroundShare(t)(i) >= 0.0
  {
    if n > 0 {
      ForegroundSupport(h, t, n - 1);
      MembershipBounds(n - 1, t);
      AboveCountStep(h, t, n);
    }
  }

  /** The background mass is zero exactly when no sample lies below `t`. */
  lemma BackgroundMassZero(h: seq<nat>, t: Byte, n: int)
    requires 0 <= n <= |h| && n <= 256
    ensures FuzzyMasses(h, t, n).bg >= 0.0
    ensures FuzzyMasses(h, t, n).bg == 0.0 <==> CountIn(h, 0, Min(n, t)) == 0
  {
    MassesFields(h, t, n);
    SharesWeighted(h, t, n);
    BackgroundSupport(h, t, n);
    WeightedZero(h, BackgroundShare(t), n);
  }

  /** Below 255, the foreground mass is zero exactly when no sample lies above `t`. */
  lemma ForegroundMassZero(h: seq<nat>, t: Byte, n: int)
    requires 0 <= n <= |h| && n <= 256 && t < 255
    ensures FuzzyMasses(h, t, n).fg >= 0.0
    ensures FuzzyMasses(h, t, n).fg == 0.0 <==> CountIn(h, Min(n, t + 1), n) == 0
  {
    MassesFields(h, t, n);
    SharesWeighted(h, t, n);
    ForegroundSupport(h, t, n);
    WeightedZero(h, ForegroundShare(t), n);
  }

  /** The count below `t` grows by bin `n - 1` exactly when that bin is below `t`. */
  lemma BelowCountStep(h: seq<nat>, t: Byte, n: int)
    requires 0 < n <= |h|
    ensures n - 1 < t ==> CountIn(h, 0, Min(n, t)) == CountIn(h, 0, Min(n - 1, t)) + h[n - 1]
    ensures n - 1 >= t ==> CountIn(h, 0, Min(n, t)) == CountIn(h, 0, Min(n - 1, t))
  {
  }

  /** The count above `t` grows by bin `n - 1` exactly when that bin is above `t`. */
  lemma AboveCountStep(h: seq<nat>, t: Byte, n: int)
    requires 0 < n <= |h| && t < 255
    ensures n - 1 > t ==> CountIn(h, Min(n, t + 1), n) == CountIn(h, Min(n - 1, t + 1), n - 1) + h[n - 1]
    ensures n - 1 <= t ==> CountIn(h, Min(n, t + 1), n) == CountIn(h, Min(n - 1, t + 1), n - 1)
  {
  }

  /** Adding `mu * count` samples' mass keeps a mass nonnegative and zero
      exactly when its count `k` is: `mu` is positive and the count grows
      by `v`, or `mu` is zero and the count stays. */
  lemma MassStep(m: real, m': real, mu: real, count: real, k: int, k': int, v: int)
    requires m' >= 0.0 && (m' == 0.0 <==> k' == 0) && k' >= 0 && v >= 0
    requires m == m' + mu * count && count == v as real
    requires (mu > 0.0 && k == k' + v) || (mu == 0.0 && k == k')
    ensures m >= 0.0 && (m == 0.0 <==> k == 0)
  {
    ScaledNonnegative(mu, count);
  }

  lemma ScaledNonnegative(mu: real, count: real)
    requires mu >= 0.0 && count >= 0.0
    ensures mu * count >= 0.0 && (mu * count == 0.0 <==> mu == 0.0 || count == 0.0)
  {
  }

  /** The fuzzy search skips `t` exactly when no sample lies below `t` or none
      lies above it. */
  lemma FuzzySkips(h: seq<nat>, total: nat, t: Byte)
    requires |h| == 256 && total > 0 && t < 255
    ensures FuzzyScore(h, total, t).None? <==> CountIn(h, 0, t) == 0 || CountIn(h, t + 1, 256) == 0
  {
    BackgroundMassZero(h, t, 256);
    ForegroundMassZero(h, t, 256);
  }

  /** The threshold `threshold_fuzzy_minimum_error` picks for the luminance samples `xs`. */
  function FuzzyThreshold(xs: seq<Byte>): Byte {
    if |xs| == 0 then 128 else BestThreshold(FuzzyScores(Bins(xs), |xs|), false)
  }

  /** The first inner loop of the fuzzy search: the membership masses. */
  method FuzzyAccumulate(hist: seq<nat>, t: Byte) returns (m: Masses)
    requires |hist| == 256
    ensures m == FuzzyMasses(hist, t, 256)
  {
    var sumBg, sumFg, weightedSumBg, weightedSumFg := 0.0, 0.0, 0.0, 0.0;
    for i := 0 to 256
      invariant Masses(sumBg, sumFg, weightedSumBg, weightedSumFg) == FuzzyMasses(hist, t, i)
    {
      var mu := Membership(i, t);
      var count := hist[i] as real;
      AddLevelFields(Masses(sumBg, sumFg, weightedSumBg, weightedSumFg), i, mu, count);
      sumBg := sumBg + mu.0 * count;
      sumFg := sumFg + mu.1 * count;
      weightedSumBg := weightedSumBg + mu.0 * i as real * count;
      weightedSumFg := weightedSumFg + mu.1 * i as real * count;
    }
    m := Masses(sumBg, sumFg, weightedSumBg, weightedSumFg);
  }

  /** The second inner loop of the fuzzy search: the error before it is divided
      by the pixel count. */
  method FuzzyErrorSum(hist: seq<nat>, t: Byte, meanBg: real, meanFg: real) returns (error: real)
    requires |hist| == 256
    ensures error == FuzzyError(hist, t, meanBg, meanFg, 256)
  {
    error := 0.0;
    for i := 0 to 256
      invariant error == FuzzyError(hist, t, meanBg, meanFg, i)
    {
      error := error + FuzzyTerm(hist, t, meanBg, meanFg, i);
    }
  }

  /** The outer loop of the fuzzy search over the grayscale histogram of
      `total > 0` pixels. */
  method FuzzyLevel(hist: seq<nat>, total: nat) returns (best: Byte)
    requires |hist| == 256 && total > 0
    ensures best == BestThreshold(FuzzyScores(hist, total), false)
  {
    ghost var score := FuzzyScores(hist, total);
    best := 128;
    var minError: Option<real> := None;
    var t := 1;
    while t < 255
      invariant 1 <= t <= 255
      invariant BestThreshold(score, false) == ScanBest(score, false, t, best, minError)
    {
      var m := FuzzyAccumulate(hist, t);
      if m.bg == 0.0 || m.fg == 0.0 {
        assert score(t).None?;
        t := t + 1;
        continue;
      }
      var meanBg := m.weightedBg / m.bg;
      var meanFg := m.weightedFg / m.fg;
      var error := FuzzyErrorSum(hist, t, meanBg, meanFg);
      error := error / total as real;
      assert score(t) == Some(error);
      if minError.None? || error < minError.value {
        minError := Some(error);
        best := t;
      }
      t := t + 1;
    }
  }

  /** `threshold_fuzzy_minimum_error`. */
  method ThresholdFuzzyMinimumError(img: ImageBuffer) returns (r: ImageBuffer)
    requires img.Valid()
    ensures fresh(r) && fresh(r.data) && SameShape(r, img)
    ensures r.data[..] == Binarized(img.data[..], FuzzyThreshold(LuminanceSamples(img.data[..])))
  {
    var hist := ComputeHistogramGrayscale(img);
    var total := img.width * img.height;
    ghost var xs := LuminanceSamples(img.data[..]);
    ValidLength(img);
    assert |xs| == total;
    var threshold: Byte := 128;
    if total > 0 {
      threshold := FuzzyLevel(hist, total);
    }
    assert threshold == FuzzyThreshold(xs);
    var b := ThresholdManual(img, threshold);
    r := b.value;
  }
}
