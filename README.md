# Image-processing engine of ComputerGraphics, modelled in Dafny

This project models the engine under `src/` of the ComputerGraphics
application. It covers:

- the flat RGB pixel buffer `ImageBuffer`;
- the Netpbm P3/P6 codec;
- point operations and 256-bin histograms (stretch and equalisation);
- convolution, median and separable Gaussian filters;
- manual and automatic binarisation thresholds;
- 3x3 homogeneous transforms and the editable `Polygon`;
- Bézier and rational Bézier curves.

There is one Dafny module per source file:

- `Common`: bytes, the exception classes, and Python's `int()` and `round()`;
- `ImageBuffers`;
- `Ppm`;
- `Operations`;
- `Histogram`;
- `Filters`;
- `Sorting`: the sorted neighbour lists of the median filter;
- `Binarization`;
- `Geometry2D`;
- `Summation`: finite sums shared by the Bernstein proofs;
- `Bezier`.

The buffer is a `class` with an `array<Byte>`. `Valid()` is the invariant
that the factory methods establish: `data.Length == width * height * 3` and
`max_value <= 255`. The source's dataclass constructor checks neither.
`set_pixel` changes the array in place. Every image operation is a method
that loops over the bytes and writes a fresh array. Its `ensures` ties the
new bytes to a specification function over `seq<Byte>`, and the lemmas about
that function state what the operation promises.

The codec works on the bytes of a file held in memory. Its tokenizers are
loops proved equal to recursive scanning functions. The round trip
`read_ppm(write_ppm(img)) == img` is proved for P3 and for P6, at
`max_value == 255`.

Float arithmetic is modelled as exact `real` arithmetic. The transcendental
functions `exp`, `log`, `log2`, `cos` and `sin` are function parameters.

## Model

| member | source | states |
|---|---|---|
| Common.Trunc | src/histogram.py:64 | `int()` on a float truncates toward zero: the result is within one of `x`, on the side of 0 |
| Common.RoundHalfEven | src/image_buffer.py:56 | `round()` returns a nearest integer, and the even one on a tie |
| Common.TruncMonotone | src/histogram.py:64 | truncation preserves order |
| Common.RoundMonotone | src/image_buffer.py:56 | rounding preserves order |
| ImageBuffers.Clamp | src/image_buffer.py:55-56 | `clamp` lies in `[0, max_value]` and equals `round(v)` whenever that is in range |
| ImageBuffers.ClampMonotone | src/image_buffer.py:55-56 | `clamp` preserves order |
| ImageBuffers.Luminance | src/histogram.py:24 | the truncated luminance lies between the smallest and the largest channel, and equals the channel value of a grey pixel |
| ImageBuffers.OffsetBounds | src/image_buffer.py:98-99 | `_offset` of an in-bounds pixel is a multiple of 3, and all three of its bytes are inside the buffer |
| ImageBuffers.ImageBuffer.FromDimensions | src/image_buffer.py:18-35 | `ValueError` when `width <= 0` or `height <= 0`; otherwise a valid fresh buffer of `w*h*3` bytes in which every pixel is `color`, black by default |
| ImageBuffers.FillAt | src/image_buffer.py:29-34 | every pixel of the filled byte string is the fill colour |
| ImageBuffers.FromDimensionsReadsBack | src/image_buffer.py:28-35 | `get_pixel` on a buffer from `from_dimensions` returns the fill colour at every in-bounds position |
| ImageBuffers.ImageBuffer.FromPixels | src/image_buffer.py:37-50 | `ValueError` exactly when some channel is not a byte or the number of pixels differs from `width*height`; otherwise the bytes are the pixels flattened in order |
| ImageBuffers.FlattenAt | src/image_buffer.py:45-47 | byte `3k+j` of the flattened list is channel `j` of pixel `k` |
| ImageBuffers.ImageBuffer.Copy | src/image_buffer.py:52-53 | a fresh buffer with a fresh array, with the same dimensions and the same bytes |
| ImageBuffers.ImageBuffer.GetPixel | src/image_buffer.py:58-61 | `IndexError` exactly outside `0<=x<width`, `0<=y<height`; otherwise the three bytes at `_offset(x, y)` |
| ImageBuffers.ImageBuffer.SetPixel | src/image_buffer.py:63-69 | `IndexError` outside the image, and then nothing changes; otherwise only bytes `offset..offset+2` change, each to the clamped channel, and `get_pixel` afterwards returns the clamped colour |
| ImageBuffers.ImageBuffer.ApplyPointOperation | src/image_buffer.py:75-82 | a fresh buffer of the same shape whose bytes are `MapPixels` of the old bytes; the source is unchanged |
| ImageBuffers.MapPixelsAt | src/image_buffer.py:77-81 | each output pixel is the function of the same input pixel alone, each channel clamped |
| Operations.ScalarPointOp | src/operations.py:8-12 | a fresh buffer of the same shape in which byte `i` is `clamp(func(data[i]))` |
| Operations.AddConstant | src/operations.py:15-16 | byte `i` becomes `clamp(data[i] + value)` |
| Operations.SubtractConstant | src/operations.py:19-20 | byte `i` becomes `clamp(data[i] - value)` |
| Operations.Multiply | src/operations.py:23-24 | byte `i` becomes `clamp(data[i] * factor)` |
| Operations.Divide | src/operations.py:27-30 | `ZeroDivisionError` exactly when the divisor is 0; otherwise byte `i` becomes `clamp(data[i] / divisor)` |
| Operations.ChangeBrightness | src/operations.py:33-34 | the same result as `add_constant` with `delta` |
| Operations.NeutralOperationsKeepBytes | src/operations.py:15-16 | adding 0 or multiplying by 1 keeps a byte that is at most `max_value` |
| Operations.LinearColorScaleAt | src/operations.py:37-43 | R, G and B are scaled by their own factors and clamped independently |
| Operations.LinearColorScale | src/operations.py:37-43 | the result's bytes are the per-channel scaled and clamped bytes |
| Operations.TruncThird | src/operations.py:48 | `int((r+g+b)/3)` is the floor of the integer division by 3 |
| Operations.AverageGray | src/operations.py:46-49 | every output pixel has three equal channels, each the clamped channel average |
| Operations.LuminanceGray | src/operations.py:52-55 | every output pixel has three equal channels, each the clamped truncated luminance |
| Operations.GrayscaleAverage | src/operations.py:46-49 | the output is the average-grey image of the input |
| Operations.GrayscaleLuminance | src/operations.py:52-55 | the output is the luminance-grey image of the input |
| Ppm.DecimalRoundTrip | src/ppm.py:27 | the decimal numeral written for `n` reads back as `n` |
| Ppm.ReadTokens | src/ppm.py:47-70 | the tokenizer loop yields the tokens of `HeaderScan` and stops where `HeaderScan` leaves the rest of the stream |
| Ppm.HeaderCommentSkipped | src/ppm.py:55-61 | bytes from `#` through the next CR or LF contribute nothing |
| Ppm.HeaderWord | src/ppm.py:62-68 | a run of non-space bytes ended by whitespace is one token, and one fewer token is then required |
| Ppm.HeaderScan | src/ppm.py:47-70 | at most `required` tokens are yielded |
| Ppm.HeaderScanExhausted | src/ppm.py:50-53 | fewer tokens than required happens only at the end of input |
| Ppm.HeaderScanStopsAfterSeparator | src/ppm.py:50-66 | when the last required token is found, the scan stops right after the whitespace byte that ends it |
| Ppm.HeaderScanSuffix | src/ppm.py:47-70 | the scan consumes a prefix of the stream |
| Ppm.AsciiValueGenerator | src/ppm.py:87-109 | the chunked body tokenizer yields the tokens of `BodyScan`, including a final token at end of input |
| Ppm.BodySplit | src/ppm.py:94-107 | tokenizing a concatenation splits at a whitespace boundary |
| Ppm.BodyCommentSkipped | src/ppm.py:95-101 | body comments run to the next CR or LF |
| Ppm.NormalizeValue | src/ppm.py:135-138 | the identity at `max_value == 255`; `ZeroDivisionError` exactly at `max_value == 0` |
| Ppm.NormalizeRange | src/ppm.py:135-138 | a sample at most `max_value` normalises into `[0, 255]`, with 0 mapping to 0 and `max_value` to 255 |
| Ppm.ReadAsciiPixels | src/ppm.py:73-84 | the loop produces `AsciiSamples` of the tokens |
| Ppm.AsciiSamplesIgnoreExtra | src/ppm.py:76-78 | tokens beyond the first `total` do not change the result |
| Ppm.AsciiSamplesCount | src/ppm.py:82-83 | too few tokens is a format error; with enough tokens, only the first `total` decide |
| Ppm.BinarySamples | src/ppm.py:112-119 | a format error exactly when fewer than `total` bytes remain; at 255 the bytes are kept unchanged; a result always has `total` samples |
| Ppm.ReadBinaryPixels | src/ppm.py:112-119 | the loop produces `BinarySamples` |
| Ppm.ParseHeader | src/ppm.py:36-44 | inputs shorter than 2 bytes fail, and so does any magic other than `P3`/`P6`; a success has magic `P3` or `P6`, and `binary` is set exactly for `P6` |
| Ppm.HeaderIncomplete | src/ppm.py:40-42 | with magic `P3` or `P6` and ASCII tokens, fewer than three header tokens is a `PPMFormatError` |
| Ppm.ReadHeader | src/ppm.py:36-44 | the header reader computes `ParseHeader` |
| Ppm.DecodePpm | src/ppm.py:12-22 | a successful read has `width*height*3` samples and `max_value <= 255` |
| Ppm.ReadPpm | src/ppm.py:12-22 | fails exactly when `DecodePpm` fails, with the same error; otherwise a fresh valid buffer holding the decoded width, height, `min(max_value, 255)` and samples |
| Ppm.WriteAsciiPixels | src/ppm.py:122-132 | the P3 body is one line per image row of the rows' `"r g b"` triples joined by spaces |
| Ppm.RowValues | src/ppm.py:125-131 | the triples of one row are the row's bytes three at a time |
| Ppm.WritePpm | src/ppm.py:25-33 | the output is the header `magic\nW H\nM\n` followed by the raw bytes (P6) or the ASCII rows (P3) |
| Ppm.HeaderRoundTrip | src/ppm.py:27 | parsing a written header returns its magic, width, height and max value, and leaves the body untouched |
| Ppm.AsciiRowsTokens | src/ppm.py:122-132 | tokenizing the written P3 body gives back the numerals of every byte in order |
| Ppm.AsciiSamplesOfNumerals | src/ppm.py:73-84 | reading the numerals of the bytes at 255 gives back the bytes |
| Ppm.PpmRoundTrip | src/ppm.py:12-33 | at `max_value == 255`, reading a written P3 or P6 file reproduces width, height, max value and data |
| Histogram.BinsTotal | src/histogram.py:11-15 | the 256 bins sum to the number of samples |
| Histogram.ComputeHistogram | src/histogram.py:6-15 | bin `v` counts the samples of the channel equal to `v`, and the bins sum to `width*height` |
| Histogram.ComputeHistogramGrayscale | src/histogram.py:18-26 | every pixel is counted in the bin of its truncated luminance, and the bins sum to `width*height` |
| Histogram.LowestFrom | src/histogram.py:49-52 | the first occupied level at or after `from`, or `None` when every such level is empty |
| Histogram.HighestBelow | src/histogram.py:53-56 | the last occupied level below `upto`, or `None` when none is occupied |
| Histogram.RescaleMonotone | src/histogram.py:60-64 | the truncating linear map never reverses order |
| Histogram.RescaleAsQuotient | src/histogram.py:64 | `int((x - low) * (255 / (high - low)))` is the truncated quotient of `(x - low) * 255` by `high - low` |
| Histogram.RescaleEnds | src/histogram.py:60-64 | the map sends `min_val` to 0 and `max_val` to 255, and everything between into `[0, 255]` |
| Histogram.StretchSingleChannel | src/histogram.py:43-71 | the result's bytes are `StretchChannel` of the input; a fresh buffer of the same shape |
| Histogram.StretchProperties | src/histogram.py:57-70 | the other two channels are copied byte for byte, the lowest level maps to `clamp(0)` and the highest to `clamp(255)`, and the map is monotone on the channel |
| Histogram.StretchFullRangeIdentity | src/histogram.py:57-65 | a channel that already spans 0..255 is unchanged, at `max_value == 255` |
| Histogram.SamplesWithinLevels | src/histogram.py:47-56 | every sample lies between the lowest and the highest occupied level |
| Histogram.HistogramStretch | src/histogram.py:29-40 | channel 0, 1 or 2 stretches that channel; otherwise R, then G, then B in sequence |
| Histogram.MapChannel | src/histogram.py:62-65 | only bytes of channel `c` are written, each to the clamped level |
| Histogram.CopyOtherChannels | src/histogram.py:67-70 | only bytes of the other channels are written, each to the source byte |
| Histogram.CumulativeHistogram | src/histogram.py:95-98 | the running-sum loop computes `Cdf` |
| Histogram.CdfProperties | src/histogram.py:95-98 | the CDF is nondecreasing, and `cdf[255]` is the total count |
| Histogram.CdfMinAtLowest | src/histogram.py:100 | `cdf_min` is the CDF at the lowest occupied level |
| Histogram.EqualizeOccupied | src/histogram.py:100 | with a positive pixel count some level is occupied, so `min()` has an argument |
| Histogram.LookupTable | src/histogram.py:104-107 | the table loop computes `Lut` |
| Histogram.LutProperties | src/histogram.py:103-107 | the lookup table is nondecreasing; from the lowest occupied level on it lies in `[0, 255]`; its last entry is 255 |
| Histogram.EqualizeSingleChannel | src/histogram.py:88-118 | the result's bytes are `EqualizeChannel` of the input |
| Histogram.EqualizeDegenerate | src/histogram.py:92-102 | with no pixels, or with `cdf_min >= total_pixels`, the bytes are returned unchanged |
| Histogram.EqualizeProperties | src/histogram.py:109-117 | the other channels are copied, and the remap is monotone on the channel |
| Histogram.HistogramEqualization | src/histogram.py:74-85 | channel 0, 1 or 2 equalises that channel; otherwise R, then G, then B in sequence |
| Sorting.Sort | src/filters.py:33-35 | `list.sort()` yields a sorted permutation of the neighbours |
| Sorting.SortedRank | src/filters.py:36-40 | in a sorted list, at most `k` elements are below element `k`, and at most `n-1-k` are above it |
| Filters.ClampIndex | src/filters.py:190-191 | `_clamp` lies in `[lo, hi]` when `lo <= hi`, is the value when in range, and the nearer bound otherwise |
| Filters.SampleInImage | src/filters.py:139-142 | the clamped neighbour coordinate addresses a byte inside the buffer (edge replication) |
| Filters.SquareRowsAll | src/filters.py:125 | the recursive row check is exactly "every row has as many entries as the kernel has rows" |
| Filters.EffectiveDivisor | src/filters.py:128-130 | a given non-zero divisor is used; `None` or 0 falls back to the weight sum; the divisor is never 0 |
| Filters.Convolve | src/filters.py:118-150 | `ValueError` exactly when the kernel is not square with odd side; otherwise a fresh buffer of the same shape with bytes `ConvolveData` |
| Filters.ConvolveAt | src/filters.py:136-149 | each output byte is `clamp(acc / divisor + offset)` of the kernel-weighted sum of edge-clamped neighbours of that channel |
| Filters.Accumulate | src/filters.py:136-145 | the nested kernel loops compute the weighted sums `KernelAcc` of the three channels |
| Filters.UniformUnchanged | src/filters.py:124-150 | with the weight sum as divisor and no offset, a uniform image is unchanged |
| Filters.MeanFilter | src/filters.py:9-12 | a `size x size` kernel of ones divided by `size*size`; `ValueError` exactly for a non-positive or even size |
| Filters.MeanOfUniform | src/filters.py:9-12 | the mean filter returns a uniform image unchanged |
| Filters.SharpenSum | src/filters.py:92-96 | the sharpening kernel is 3x3 with weights summing to 1 |
| Filters.HighPassSharpen | src/filters.py:91-97 | a convolution with the sharpening kernel and its weight sum as divisor |
| Filters.SharpenOfUniform | src/filters.py:91-97 | sharpening returns a uniform image unchanged |
| Filters.CustomConvolution | src/filters.py:109-115 | the same contract as `_convolve` with the given kernel, divisor and offset |
| Filters.MedianFilter | src/filters.py:15-41 | a fresh buffer of the same shape with bytes `MedianData` of radius `size // 2`; Python's negative-radius `IndexError` on a non-empty image is modelled |
| Filters.MedianFilterAt | src/filters.py:22-40 | each output byte is the median of that channel's edge-clamped neighbourhood, channels independent |
| Filters.MedianIsSample | src/filters.py:33-38 | the median is one of the neighbourhood samples |
| Filters.MedianRank | src/filters.py:33-38 | at most half of the samples are below the median, and at most half are above it |
| Filters.MedianOfUniformImage | src/filters.py:15-41 | the median filter returns a uniform image unchanged |
| Filters.ApplySeparable | src/filters.py:153-177 | the pass along x or y computes `PassData`: each byte is the clamped 1-D weighted sum of clamped neighbours |
| Filters.PassOfUniform | src/filters.py:153-177 | a kernel summing to 1 leaves a uniform image unchanged |
| Filters.GaussianKernel | src/filters.py:180-187 | the kernel loop computes `GaussianKernelOf` |
| Filters.GaussianWeights | src/filters.py:181-186 | the loop yields the `2*radius+1` weights for `-radius..radius` and their total; it fails exactly for `sigma == 0` |
| Filters.GaussianKernelSum | src/filters.py:180-187 | the normalised kernel has `2*radius+1` entries that sum to 1 |
| Filters.GaussianKernelSymmetric | src/filters.py:183-184 | the kernel is symmetric about its centre |
| Filters.GaussianKernelFails | src/filters.py:187 | with a positive `exp`, normalising fails exactly when `sigma == 0` |
| Filters.GaussRadius | src/filters.py:103 | `max(1, int(3*sigma))`: at least 1, and the integer part of `3*sigma` once that is at least 1 |
| Filters.GaussianBlur | src/filters.py:100-106 | `ValueError` exactly when `sigma <= 0`; otherwise the x pass then the y pass with the Gaussian kernel |
| Filters.BlurOfUniform | src/filters.py:100-106 | Gaussian blur returns a uniform image unchanged |
| Binarization.BinarizedAt | src/binarization.py:17-23 | every output pixel has three equal channels; they are 255 exactly when the truncated luminance is `>= threshold`, otherwise 0 |
| Binarization.BinarizedAtZero | src/binarization.py:19-20 | threshold 0 makes every byte 255 |
| Binarization.BinarizedAntitone | src/binarization.py:20 | raising the threshold never turns a black byte white |
| Binarization.ThresholdManual | src/binarization.py:9-24 | `ValueError` exactly outside `[0, 255]`; otherwise a fresh buffer of the same shape with the binarised bytes |
| Binarization.PercentTarget | src/binarization.py:36 | `int(total * percent / 100)` lies in `[0, total]` for a valid percent |
| Binarization.PercentLevel | src/binarization.py:37-43 | the cumulative loop finds `FirstReaching`, the first level whose count reaches the target |
| Binarization.PercentThresholdFirst | src/binarization.py:37-43 | the threshold's cumulative count reaches the target, and no lower level's does |
| Binarization.PercentZero | src/binarization.py:36-43 | `percent == 0` gives threshold 0 |
| Binarization.PercentMonotone | src/binarization.py:36-43 | a larger percent never gives a lower threshold |
| Binarization.ThresholdPercentBlack | src/binarization.py:27-44 | `ValueError` exactly outside `[0, 100]`; otherwise the manual threshold at the percent level |
| Binarization.MeanBounds | src/binarization.py:67-68 | the mean of a non-empty level range lies within that range |
| Binarization.MeanSplit | src/binarization.py:61-69 | the next threshold computed from two non-empty sides lies in `[0, 254]` |
| Binarization.MeanIterate | src/binarization.py:59-72 | at most `max_iterations` rounds run, and stopping early means one side is empty or the threshold is a fixed point |
| Binarization.MeanThresholdSettles | src/binarization.py:53-73 | the loop's result is the iterated threshold from the initial mean |
| Binarization.MeanIterativeLevel | src/binarization.py:52-72 | 128 when there are no pixels; otherwise the iterated threshold |
| Binarization.ThresholdMeanIterative | src/binarization.py:47-73 | the manual threshold at the mean-iterative level, which is always within `[0, 255]` |
| Binarization.SearchBest | src/binarization.py:87-110 | the scan over `t = 1..254` computes `BestThreshold` |
| Binarization.BestThresholdLowest | src/binarization.py:108-110 | the result is the lowest best-scoring `t`, or 128 when no `t` qualifies |
| Binarization.EntropySkips | src/binarization.py:91-94 | `t` is skipped exactly when the background or the foreground is empty |
| Binarization.ThresholdEntropy | src/binarization.py:76-111 | the manual threshold at the entropy search's result, with 128 for an empty image |
| Binarization.MinErrorSkipsFlatSide | src/binarization.py:133-143 | a background made of a single level has zero variance, so `t` is skipped |
| Binarization.ThresholdMinimumError | src/binarization.py:114-150 | the manual threshold at the minimum-error search's result, with 128 for an empty image |
| Binarization.MembershipBounds | src/binarization.py:173-180 | memberships lie in `[0, 1]`: the background membership is positive exactly below `t`, and the foreground membership is positive exactly above `t` |
| Binarization.BackgroundMassZero | src/binarization.py:172-186 | the background mass is nonnegative, and zero exactly when no pixel lies below `t` |
| Binarization.ForegroundMassZero | src/binarization.py:172-186 | the foreground mass is nonnegative, and zero exactly when no pixel lies above `t` |
| Binarization.FuzzySkips | src/binarization.py:186-187 | `t` is skipped exactly when no pixel lies below `t` or none lies above it |
| Binarization.FuzzyAccumulate | src/binarization.py:168-185 | the accumulation loop computes the four fuzzy sums |
| Binarization.FuzzyErrorSum | src/binarization.py:191-198 | the error loop computes `FuzzyError` |
| Binarization.FuzzyLevel | src/binarization.py:162-202 | the scan picks `BestThreshold` of the fuzzy scores, minimising |
| Binarization.ThresholdFuzzyMinimumError | src/binarization.py:153-203 | the manual threshold at the fuzzy search's result, with 128 for an empty image |
| Geometry2D.MulIdentity | src/geometry2d.py:12-37 | the identity matrix is neutral for `mat3_mul` |
| Geometry2D.Apply | src/geometry2d.py:40-47 | the homogeneous divide is skipped exactly when `abs(hw) < 1e-12` |
| Geometry2D.ApplyTranslate | src/geometry2d.py:50-55 | a translation maps `(x, y)` to `(x+dx, y+dy)` |
| Geometry2D.ApplyScale | src/geometry2d.py:69-74 | a scale maps `(x, y)` to `(sx*x, sy*y)` |
| Geometry2D.ApplyRotate | src/geometry2d.py:58-66 | a rotation with cosine `c` and sine `s` maps `(x, y)` to `(cx - sy, sx + cy)` |
| Geometry2D.ApplyMulAffine | src/geometry2d.py:20-47 | applying a product of affine matrices is applying the factors in turn |
| Geometry2D.AroundPointConjugates | src/geometry2d.py:77-80 | `around_point(p, M)` acts as `T(p) · M · T(-p)` |
| Geometry2D.PivotStaysFixed | src/geometry2d.py:77-80 | scaling or rotating about `p` keeps `p` fixed |
| Geometry2D.Distance2Symmetric | src/geometry2d.py:83-86 | the squared distance is symmetric |
| Geometry2D.PointInPolygon | src/geometry2d.py:89-104 | false for fewer than 3 vertices; otherwise the parity of the crossed edges |
| Geometry2D.DegenerateOutside | src/geometry2d.py:94-95 | fewer than 3 vertices enclose nothing |
| Geometry2D.CrossesSymmetric | src/geometry2d.py:100 | the crossing test does not depend on the direction of the edge |
| Geometry2D.RightOfAllOutside | src/geometry2d.py:89-104 | a point to the right of every vertex crosses no edge, so it is outside |
| Geometry2D.PointInPolygonAsWritten | src/geometry2d.py:89-104 | the ray cast with the source's `1e-12` slack: false below three vertices, and it fails only with `ZeroDivisionError`, at an edge whose height difference cancels the slack |
| Geometry2D.AsWrittenDividesByZero | src/geometry2d.py:100 | the crossing test as written divides by zero on a named polygon |
| Geometry2D.AsWrittenShiftsCrossing | src/geometry2d.py:100 | as written, the test reports a point outside a triangle that contains it, because the slack doubles one edge's crossing offset |
| Geometry2D.Polygon.Transformed | src/geometry2d.py:112-113 | a fresh polygon with the same name whose points are the mapped points |
| Geometry2D.Polygon.Apply | src/geometry2d.py:115-116 | `points` becomes the mapped old points |
| Geometry2D.MappedCompose | src/geometry2d.py:112-116 | mapping by `b` and then by `a` is mapping by `a · b` |
| Geometry2D.CentroidOf | src/geometry2d.py:118-124 | `(0, 0)` for no points; otherwise the mean of the coordinates |
| Geometry2D.Polygon.Centroid | src/geometry2d.py:118-124 | the centroid of the polygon's points |
| Geometry2D.CentroidTranslate | src/geometry2d.py:118-124 | translating a polygon translates its centroid |
| Geometry2D.AnyWithin | src/geometry2d.py:129-130 | true exactly when some vertex is within the squared radius |
| Geometry2D.Polygon.HitTest | src/geometry2d.py:126-130 | true exactly when the point is inside, or some vertex is within `radius` |
| Geometry2D.Polygon.NearestVertex | src/geometry2d.py:132-143 | `None` exactly when no vertex is within the radius and below the `1e30` sentinel; otherwise the first index of minimal squared distance |
| Geometry2D.Polygon.ToDict | src/geometry2d.py:145-146 | the dictionary holds the type, the name and the points as `x`/`y` maps |
| Geometry2D.Polygon.FromDict | src/geometry2d.py:148-151 | the error of `FromDictOf` when decoding fails: a `TypeError` when `points` is not iterable, else the first failing lookup or `float()` in point order, `x` before `y`. Otherwise a fresh polygon whose points and name are `FromDictOf`'s, the name defaulting to `"Polygon"` and passed through `str()` when it is not a string |
| Geometry2D.FromDictToDict | src/geometry2d.py:145-151 | `from_dict(to_dict(p))` reproduces the points and the name |
| Geometry2D.FromDictDefaults | src/geometry2d.py:150-151 | missing points give the empty list, and a missing name gives `"Polygon"` |
| Bezier.BinomialCoefficient | src/bezier.py:11-24 | the loop computes `Choose(n, k)`, which is 0 outside `0..n` and 1 at the ends |
| Bezier.ExactStep | src/bezier.py:23 | each `//` in the loop is exact and moves from `C(n, i)` to `C(n, i+1)` |
| Bezier.ChooseSymmetric | src/bezier.py:20 | `C(n, k) == C(n, n-k)` |
| Bezier.ChooseFactorial | src/bezier.py:11-24 | `k! (n-k)! C(n, k) == n!` |
| Bezier.BernsteinPolynomial | src/bezier.py:27-39 | 0 outside `[0, 1]`; otherwise `C(n, i) · t^i · (1-t)^(n-i)` |
| Bezier.BinomialTheorem | src/bezier.py:39 | the binomial terms of `(a + b)^n` sum to it |
| Bezier.PartitionOfUnity | src/bezier.py:37-39 | for `t` in `[0, 1]` the basis values `i = 0..n` sum to 1 |
| Bezier.CurvePoint | src/bezier.py:53-65 | the loop computes `CurvePointOf`, which is `(0, 0)` for no controls |
| Bezier.CurveEndpoints | src/bezier.py:53-65 | the curve starts at the first control point and ends at the last |
| Bezier.RationalCurvePoint | src/bezier.py:84-102 | the loop computes `RationalPointOf`, which is `(0, 0)` for no controls, for mismatched lengths, or for a denominator below `1e-10` |
| Bezier.RationalUniformWeights | src/bezier.py:84-102 | equal weights of at least `1e-10` give the polynomial curve |
| Bezier.GenerateCurve | src/bezier.py:121-135 | the sampler computes `SampledCurve`: the controls for fewer than two, otherwise `num_samples+1` points at `t = i/num_samples`, rational exactly when weights match |
| Bezier.SampledEndpoints | src/bezier.py:121-135 | at least one sample gives `num_samples+1` points, from the first control to the last |
| Bezier.SampleParameters | src/bezier.py:128 | every sample parameter lies in `[0, 1]` |

## Left out

- I/O: the file handles of `read_ppm`/`write_ppm` are replaced by one byte sequence for the whole file. `image_io.py` and the Pillow/JPEG wrappers (`to_pillow_image`, `from_pillow_image`, `jpeg_io.py`) are not part of this model.
- The Qt and Tk user interfaces, and the JSON save and load of the polygon window, are not part of this model.
- Float arithmetic: every float is an exact `real`. IEEE rounding effects are not captured; for example, `(max-min) * (255.0/(max-min))` may truncate to 254 in doubles.
- Luminance: the weights 0.2126/0.7152/0.0722 are the exact rationals 2126/7152/722 divided by 10000, so boundary cases may differ from doubles.
- `exp`, `log`, `log2`, `cos` and `sin` are function parameters. The entropy and minimum-error scores use them only through the skip conditions and the search.
- Filters.GaussianKernel: the weights are `exp(-(i²)/(2σ²))` for an arbitrary positive `exp`; the kernel's sum and symmetry are proved, not its values.
- `sobel_edge`: its magnitude needs `math.sqrt` on floats, so it is left out. Its neighbour access is the same edge-clamped sampling that `_convolve` uses.
- Python's `int(token)` accepts signs, underscores and surrounding whitespace. The codec accepts decimal digits only, and anything else is a `ValueError`.
- Buffers with `max_value > 255`: `Valid()` requires `max_value <= 255`. Above that, Python raises when it stores a clamped value above 255 in a `bytearray`.
- ImageBuffers.ImageBuffer.FromPixels: `width` and `height` are natural numbers. Negative dimensions whose product matches the pixel count are not modelled.
- Geometry2D.FromDictToDict: `float()` and `str()` are parameters (`parse`, `show`). `to_dict` stores the numbers themselves, so `parse` is never applied on the round trip, and `from_dict(to_dict(p))` is proved for every `parse` and `show`.
- Bezier.BernsteinPolynomial: requires `i <= n`, because the curve evaluators only call it that way. Python's negative powers for `i > n` are not modelled.
- Bezier.RationalUniformWeights: requires `t` in `[0, 1]` and weights of at least `1e-10`, so that the denominator guard does not fire.
- Binarization.ThresholdMinimumError: the score's unused `mean_all`/`variance_all` are not modelled, because they do not affect the result.
- Binarization.ThresholdPercentBlack: the code is followed. The threshold is the level at which the cumulative count first reaches the target, and pixels at that level turn white. So with 50% on an image of two equally common levels, the threshold is the darker level, and every pixel turns white.
- Geometry2D.Polygon.HitTest: it uses the exact crossing test `InPolygon`, not the source's slack. So it answers on the polygon where `hit_test` raises `ZeroDivisionError`, and with a radius that reaches no vertex it can disagree with `hit_test` on a nearly horizontal edge (see Findings).
- `iter_pixels` is not modelled. It is a generator that no modelled operation uses.

## Findings

| source | as written | input that shows it | evidently intended | confidence | as-written member | corrected member |
|---|---|---|---|---|---|---|
| src/geometry2d.py:100 | the crossing abscissa divides by `yj - yi + 1e-12` | point `(0, 0)` and polygon `[(1, 1e-12), (2, 5), (1, 0)]`: the first edge examined runs from `(1, 0)` to `(1, 1e-12)` and straddles the ray, and its denominator is `0 - 1e-12 + 1e-12 == 0` and a `ZeroDivisionError` is raised | the slack was meant to guard against division by zero, but the straddle test already guarantees `yi != yj`. The intended test is the exact crossing, which never raises | high, not executed | Geometry2D.AsWrittenDividesByZero | Geometry2D.PointInPolygon |
| src/geometry2d.py:100 | the slack also scales the crossing abscissa's offset from `xi` by `(yj - yi) / (yj - yi + 1e-12)`. On a nearly horizontal edge this can flip the answer | point `(4, 1e-12)` and triangle `[(0, 0), (10, 2e-12), (0, 2e-12)]`: on the edge from `(10, 2e-12)` to `(0, 0)` the denominator is `-1e-12`, not `-2e-12`. The abscissa becomes 0 instead of 5, no edge is crossed, and the result is `False`, though the point lies inside. In doubles too, `2e-12 - 1e-12` equals `1e-12` exactly | the exact crossing abscissa `(xj - xi) * (y - yi) / (yj - yi) + xi` | high, not executed | Geometry2D.AsWrittenShiftsCrossing | Geometry2D.PointInPolygon |
