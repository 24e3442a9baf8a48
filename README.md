# imglab image operations in Dafny

This project models the two computational modules of imglab, a small NumPy
image-processing library.

- `ArithmeticalOperations.py` holds the point-wise operations and grayscale
  conversion:
  - `apply_clip_uint8` and `pointwise_operation`: the two decorators;
  - `image_add`, `image_subtract`, `image_multiply` and `image_divide` with
    an integer operand;
  - `gray_scale` with its five methods.
- `Filters.py` holds the neighbourhood filters:
  - the zero-padded `convolve2d`, and `mean_filter` and `sharpen_filter`
    built on it;
  - `median_filter`;
  - `SOBEL_KERNELS` and `sobel`;
  - `apply_filter_rgb`.

Representation:

- **Point-wise operations.** An image is a `U8Array`: its NumPy shape and its
  uint8 samples in row-major order. The two decorators become functions:
  `ClipUint8` clips to [0, 255], then narrows toward zero; `PointwiseOperation`
  widens to int16, applies the operation, then clips. The int16 intermediate
  is modelled exactly, including its two's-complement wrap-around (`Wrap16`).
- **Filters.** Grayscale images are rectangular `seq<seq<int>>`; kernels are
  `seq<seq<real>>`.
- **Loops.** `convolve2d` and `median_filter` are methods that allocate an
  `array2` and fill it with the source's two nested loops. Each is proved
  against a specification function of one pixel: `CorrelateAt` (the sum of the
  zero-padded window times the kernel, without flipping the kernel) and
  `MedianAt`.
- **`sobel`** is a method that loops over the angles. It calls `Convolve2d`
  once per angle and stops at the first angle that `SOBEL_KERNELS` does not
  hold. That is the `KeyError`, modelled as `Err(angle)`.
- **`apply_filter_rgb`** takes the single-channel filter as a `ChannelFilter`
  value. It writes channel c of a freshly allocated `array3` from the filter's
  result on channel c of the input.

Modules:

- `ImageTypes` (types.dfy): `Byte`, `Option`, `Result`, `Clamp`.
- `ArithmeticalOperations` (arithmetic.dfy).
- `Padding` (padding.dfy): `np.pad` with zeros, windows, flattening.
- `Convolution` (convolution.dfy): `convolve2d`, `mean_filter`, `sharpen_filter`.
- `MedianFiltering` (median.dfy).
- `EdgeDetection` (sobel.dfy).
- `ChannelMapping` (channels.dfy).

## Model

| member | source | states |
|---|---|---|
| ArithmeticalOperations.Wrap16 | ArithmeticalOperations.py:56 | int16 arithmetic: the result is in int16, congruent to the exact value modulo 65536, and equal to it when no overflow happens |
| ArithmeticalOperations.ClipUint8 | ArithmeticalOperations.py:30-34 | clip then `astype(uint8)`: 0 at or below 0, 255 at or above 255, the floor of the value in between |
| ArithmeticalOperations.PointwiseOperation | ArithmeticalOperations.py:39-60 | the decorator keeps the shape, and each output sample is the operation on that input sample alone, clamped to [0, 255] |
| ArithmeticalOperations.PointwiseIdentity | ArithmeticalOperations.py:55-58 | widening to int16 and clipping back are lossless: the identity operation returns the image unchanged |
| ArithmeticalOperations.ClipInt | ArithmeticalOperations.py:33-34 | on an integer the clip step is the saturating clamp to [0, 255] |
| ArithmeticalOperations.ImageAdd | ArithmeticalOperations.py:67-70 | the shape is kept; each sample becomes clamp(v + c), except that a sum above 32767 wraps negative in int16 and comes out 0 |
| ArithmeticalOperations.ImageSubtract | ArithmeticalOperations.py:73-76 | the shape is kept; each sample becomes clamp(v - c), with the same int16 overflow case going to 0 |
| ArithmeticalOperations.ImageMultiply | ArithmeticalOperations.py:79-82 | the shape is kept; each sample becomes clamp of the int16-wrapped product v * c, which is clamp(v * c) whenever the product fits int16 |
| ArithmeticalOperations.ImageMultiplyNoWrap | ArithmeticalOperations.py:79-82 | for a factor with 255 * abs(c) <= 32767, every sample becomes clamp(v * c) |
| ArithmeticalOperations.FloorDiv | ArithmeticalOperations.py:88 | Python `//`: c*q <= a < c*q + c for a positive divisor c, the mirrored bracket for a negative one, and 0 for a zero divisor (NumPy's integer result) |
| ArithmeticalOperations.ImageDivide | ArithmeticalOperations.py:85-88 | the shape is kept; a positive divisor gives floor(v / d); a zero or negative divisor gives 0 |
| ArithmeticalOperations.ImageDivideNonPositive | ArithmeticalOperations.py:85-88 | a divisor <= 0 never raises and blacks out every sample |
| ArithmeticalOperations.ImageDividePositive | ArithmeticalOperations.py:85-88 | a positive divisor never brightens a sample, and dividing by 1 gives the image back |
| ArithmeticalOperations.AddThenSubtractSample | ArithmeticalOperations.py:67-76 | subtract(add(v, c), c) is v when v + c <= 255 and clamp(255 - c) otherwise; it equals v exactly when v + c <= 255 or v = 0 |
| ArithmeticalOperations.AddThenSubtract | ArithmeticalOperations.py:67-76 | adding then subtracting c restores the image if and only if no non-zero sample saturated at 255 |
| ArithmeticalOperations.SubtractThenAddSample | ArithmeticalOperations.py:67-76 | add(subtract(v, c), c) is v when v >= c and clamp(c) otherwise; it equals v exactly when v >= c or v = 255 |
| ArithmeticalOperations.SubtractThenAdd | ArithmeticalOperations.py:67-76 | subtracting then adding c restores the image if and only if no sample below 255 saturated at 0 |
| ArithmeticalOperations.GrayValue | ArithmeticalOperations.py:141-147 | the per-pixel value of each method: mean is ((R + G + B) mod 256) / 3; luminosity is the integer part of 0.299 R + 0.587 G + 0.114 B, which never needs clipping; RED, GREEN and BLUE copy that channel |
| ArithmeticalOperations.GrayScale | ArithmeticalOperations.py:114-153 | shape error if and only if the input is not (H, W, 3); method error if and only if it is RGB and the method is unknown; otherwise the same shape with three equal channels per pixel |
| ArithmeticalOperations.GrayScaleSelectsChannel | ArithmeticalOperations.py:144-146 | RED, GREEN and BLUE copy that input channel into all three output channels |
| ArithmeticalOperations.GrayScaleMean | ArithmeticalOperations.py:139-142 | the mean method gives ((R + G + B) mod 256) / 3, floored: the uint8 sum wraps before the division |
| ArithmeticalOperations.GrayScaleMeanWraps | ArithmeticalOperations.py:142 | a gray pixel (128, 128, 128) becomes (42, 42, 42) |
| ArithmeticalOperations.ImageMultiplyWraps | ArithmeticalOperations.py:56 | the sample 255 times 129 comes out 0 although clamp(255 * 129) = 255 |
| ArithmeticalOperations.ImageMultiplyDarkens | ArithmeticalOperations.py:79-82 | a factor of 129 turns a white sample black |
| ArithmeticalOperations.SaturatingMultiply | ArithmeticalOperations.py:79-82 | intended multiply: every sample is clamp(v * c) for every integer factor |
| ArithmeticalOperations.SaturatingMultiplyBrightens | ArithmeticalOperations.py:79-82 | with the intended multiply, a factor >= 1 never darkens a sample |
| ArithmeticalOperations.MeanOfChannels | ArithmeticalOperations.py:142 | intended mean: it lies between the smallest and largest channel, and a gray pixel keeps its value |
| ArithmeticalOperations.MeanDiffersFromIntended | ArithmeticalOperations.py:142 | on (128, 128, 128) the mean as written gives 42 and the intended mean gives 128 |
| Padding.Pad | Filters.py:23-24 | the padded image has H + 2*ph rows of W + 2*pw columns |
| Padding.PadAt | Filters.py:24 | each padded cell is the image sample shifted by (ph, pw), or 0 outside the image |
| Padding.PadKeepsImage | Filters.py:24 | the image sits unchanged at offset (ph, pw) |
| Padding.PadBorderIsZero | Filters.py:24 | every cell outside the shifted image is 0 |
| Padding.PaddedWindowAt | Filters.py:31 | cell (a, b) of the window of (i, j) is the sample at (i + a - kh//2, j + b - kw//2), or 0 outside the image |
| Padding.PaddedWindowIsNeighbourhood | Filters.py:31 | slicing the padded image equals reading the kh x kw neighbourhood of the unpadded image with zeros outside |
| Padding.FlattenElements | Filters.py:105 | flattening a window keeps its count of samples, and every flattened value occurs in the window |
| Convolution.Convolve2d | Filters.py:12-34 | a newly allocated H x W output, whose cell (i, j) is the sum over the kernel of window times weight, without flipping the kernel |
| Convolution.Convolve2dGrid | Filters.py:27-34 | the filled array holds exactly the correlation of the whole image |
| Convolution.CorrelateAtNeighbourhood | Filters.py:31-32 | each output cell is the kernel-weighted sum of the zero-extended neighbourhood |
| Convolution.DotConstantBlock | Filters.py:32 | over a uniform window of value v the response is v times the kernel's sum |
| Convolution.DotConstantKernel | Filters.py:32 | a kernel of constant weight c scales the window's sum by c |
| Convolution.ZeroKernel | Filters.py:12-34 | an all-zero kernel gives an all-zero output |
| Convolution.Dot3 | Filters.py:32 | a 3 x 3 response is the nine-term weighted sum |
| Convolution.IdentityKernelKeepsImage | Filters.py:12-34 | the centred unit kernel gives the image back unchanged |
| Convolution.MeanFilter | Filters.py:37-48 | each cell is the correlation with the size x size box kernel, and equals the window's sum divided by size^2 |
| Convolution.MeanAt | Filters.py:47-48 | correlation with ones/(size*size) is the window's sum over size^2 |
| Convolution.MeanWithinWindow | Filters.py:47-48 | the box average lies between any lower and upper bound of the padded window |
| Convolution.MeanInByteRange | Filters.py:47-48 | over an 8-bit image the box average stays in [0, 255] |
| Convolution.SharpenFilter | Filters.py:51-66 | each cell is the correlation with the sharpen kernel: 5 times the centre minus the four edge neighbours, with zeros outside |
| Convolution.SharpenAt | Filters.py:60-66 | the sharpen response is 5*g[i][j] minus the four neighbours, with zeros outside the image |
| Convolution.SharpenLeavesByteRange | Filters.py:60-66 | the output is not clamped: the image [[0, 255]] gives -255 and 1275 |
| MedianFiltering.SortSpec | Filters.py:105 | the order np.median selects from is sorted and a permutation of the samples |
| MedianFiltering.MedianBounds | Filters.py:105 | the median lies between any lower and upper bound of the samples |
| MedianFiltering.MedianOf | Filters.py:105 | np.median stored into the integer output: with an odd count it is one of the samples (the middle of the sorted order) |
| MedianFiltering.MedianEvenBetweenMiddles | Filters.py:100-105 | with an even count the median is the mean of the two middle order statistics, truncated into the integer output, so it lies between them |
| MedianFiltering.MedianFilter | Filters.py:86-107 | a newly allocated H x W output, whose cell (i, j) is the median of the zero-padded ksize x ksize window |
| MedianFiltering.FillMedianRow | Filters.py:103-105 | the inner loop fills row i with the window medians and leaves every other row unchanged |
| MedianFiltering.MedianGrid | Filters.py:99-107 | the filled array holds exactly the median image |
| MedianFiltering.WindowBounds | Filters.py:97-104 | the padded window's samples stay within any bounds of the image that include 0 |
| MedianFiltering.MedianInByteRange | Filters.py:86-107 | over an 8-bit image the median output stays in [0, 255] |
| MedianFiltering.MedianOddFromWindow | Filters.py:104-105 | for an odd ksize the output is a sample of the padded window |
| MedianFiltering.MedianUniformInterior | Filters.py:96-105 | on a uniform image of value v, the median is v at every pixel whose window lies inside the image |
| MedianFiltering.MedianBorderOutvoted | Filters.py:97-105 | at the border the zero padding outvotes the image: a single pixel of 7 filters to 0 |
| EdgeDetection.SobelKernel | Filters.py:110-130 | a kernel exists exactly for "0", "45", "90" and "135"; each is a 3 x 3 kernel summing to 0 |
| EdgeDetection.ISqrt | Filters.py:149-152 | integer square root: r*r <= n < (r+1)^2 |
| EdgeDetection.FloorSqrt | Filters.py:149-152 | floor(sqrt(x)), the value that the uint8 cast of the square root keeps |
| EdgeDetection.Magnitude | Filters.py:149-152 | each pixel m is in [0, 255] with m*m <= S, and S < (m+1)^2 unless it saturated at 255, for the pixel's sum of squared responses S |
| EdgeDetection.FirstUnknown | Filters.py:145-146 | the key of the KeyError is an angle of the request that has no kernel |
| EdgeDetection.SobelResponses | Filters.py:143-147 | an error if and only if some angle is unknown, naming the first such angle; otherwise one correlation per angle, in order |
| EdgeDetection.Sobel | Filters.py:133-152 | an error if and only if some angle is unknown, naming the first such angle; otherwise the per-pixel clipped root of the sum of squared responses |
| EdgeDetection.SobelIsClippedRoot | Filters.py:149-152 | each output pixel m is in [0, 255] with m*m <= S, and S < (m+1)^2 unless it saturated, for the sum of squares S |
| EdgeDetection.ClippedRoot | Filters.py:150-152 | min(255, floor(sqrt(s))) brackets sqrt(s) unless it saturated |
| EdgeDetection.ResponseUniform | Filters.py:110-130 | every Sobel kernel gives response 0 on a uniform window |
| EdgeDetection.SobelUniformInterior | Filters.py:133-152 | on a uniform image, the magnitude is 0 for any known angles at every pixel whose 3 x 3 window lies inside the image |
| EdgeDetection.DefaultSobelUniformInterior | Filters.py:133 | the default directions ("0", "90") are both known, and they give magnitude 0 inside a uniform image |
| EdgeDetection.SobelNoAngles | Filters.py:149 | with no angle the magnitude is 0 everywhere |
| EdgeDetection.SobelBorderEdge | Filters.py:149-152 | the zero padding creates an edge at the border: [[10, 10]] with angle "0" gives 20 at (0, 0) |
| ChannelMapping.FilterOutput | Filters.py:166-168 | a filter fails on a channel if and only if it is sobel with an unknown angle, and the error names the first such angle; otherwise the result has the channel's shape |
| ChannelMapping.RunFilter | Filters.py:168 | running the filter's own method on a channel yields that filter's specified output |
| ChannelMapping.WriteChannel | Filters.py:168 | the assignment to `out[:, :, c]` writes channel c and leaves the other channels unchanged |
| ChannelMapping.ApplyFilterRgb | Filters.py:155-169 | an error if and only if the filter fails, carrying sobel's first unknown angle; otherwise a newly allocated H x W x 3 array, and channel c is the filter's output on input channel c, for each c |

## Left out

- gamma_correction (ArithmeticalOperations.py:91-107) is not modelled: it rests on a floating-point power, which has no exact counterpart here.
- gaussian_filter (Filters.py:69-83) is not modelled: it rests on floating-point `exp`. `Convolution.Convolve2d` covers its convolution for any kernel.
- ImageIO.py and Examples.py are not part of this model: they are file I/O and demonstrations.
- Floating point is modelled as exact reals: the float32 output of convolve2d, the float64 luminosity weights and the square root of sobel.
  - Rounding can move a value by one unit of the last place. Near an integer the uint8 truncation can then differ by 1: the pixel (0, 160, 220) has exact luminosity 119, but float64 gives 118.99999999999999, which truncates to 118.
  - For sobel this is exact: `FloorSqrt` is the floor of the real root, which is what `astype(uint8)` keeps.
- ArithmeticalOperations.ImageAdd: requires an operand within int16. NumPy 2 raises for a larger Python integer, and NumPy 1 widened the array instead; neither case is modelled.
- ArithmeticalOperations.ImageSubtract: requires an operand within int16, for the same reason.
- ArithmeticalOperations.ImageMultiply: requires a factor within int16. NumPy 2 raises for a larger Python integer, and NumPy 1 widened the array instead; neither case is modelled.
- ArithmeticalOperations.ImageDivide: requires a divisor within int16, for the same reason.
- ArithmeticalOperations.ImageMultiply: a float factor (`int | float` in the signature) is not modelled; only integer factors are.
- ArithmeticalOperations.ImageDivide: a float divisor is not modelled; only integer divisors are.
- ArithmeticalOperations.ImageDivide: NumPy's divide-by-zero warning is not modelled, only its result of 0.
- ArithmeticalOperations.GrayScale: the default method "luminosity" is not modelled as a default argument; the caller always passes a method.
- ArithmeticalOperations.GrayScale: the mean method's float division is an exact real division, truncated by the clip step.
- Convolution.MeanFilter: the default size 3 is not modelled as a default argument; the caller always passes a size.
- Convolution.MeanFilter: requires size >= 1. With size 0 NumPy divides an empty kernel by zero and returns zeros, and a negative size raises; neither case is modelled.
- MedianFiltering.MedianFilter: the default ksize 3 is not modelled as a default argument; the caller always passes a size.
- MedianFiltering.MedianFilter: requires ksize >= 1. With ksize 0 the median of the empty window is NaN, and storing NaN into the integer output raises; a negative ksize makes `np.pad` raise. Neither error is modelled.
- MedianFiltering.MedianFilter: the output has the input's integer type. The even-count median is the half-integer mean truncated toward zero, which is the cast for the non-negative images this library reads.
- EdgeDetection.Sobel: the default angles ("0", "90") are the constant DefaultAngles rather than a default argument.
- EdgeDetection.Sobel: with no angle the source returns the scalar 0, not an image. The model returns the all-zero image that this scalar broadcasts to in `apply_filter_rgb`.
- ChannelMapping.ApplyFilterRgb: the output keeps the filter's values as reals. The source stores them into an array of the input's dtype (uint8), a cast that truncates values in [0, 256) and is platform-defined outside that range.
- ChannelMapping.ApplyFilterRgb: `filter_func` is one of the five filters above, with their keyword arguments, as a `ChannelFilter` value. Arbitrary Python callables are not modelled.
- Some behaviours a reader might not expect, which the model states as the code has them:
  - dividing by 0 gives zeros rather than an error;
  - the mean and sharpen outputs are not clamped to [0, 255];
  - the median does not keep a uniform image at the border (MedianBorderOutvoted);
  - an even-size median is a truncated mean, not a middle sample.

## Findings

| source | as written | input that shows it | evidently intended | confidence | as-written member | corrected member |
|---|---|---|---|---|---|---|
| ArithmeticalOperations.py:56, 79-82 | the product is computed in int16 and wraps before the clip | sample 255 times factor 129: 32895 wraps to -32641 and clips to 0 | the product clipped to 255, as the int16 widening is meant to prevent overflow | not executed | ArithmeticalOperations.ImageMultiplyWraps | ArithmeticalOperations.SaturatingMultiply |
| ArithmeticalOperations.py:142 | `R + G + B` is summed in uint8 and wraps modulo 256 before `/ 3` | pixel (128, 128, 128): 384 wraps to 128, and 128 / 3 gives 42 | the channel mean, 128, between the smallest and largest channel | not executed | ArithmeticalOperations.GrayScaleMeanWraps | ArithmeticalOperations.MeanOfChannels |
