/**
 * apply_filter_rgb of Filters.py: a single-channel filter applied to each
 * of the three channels of an H x W x 3 image, written channel by channel
 * into a freshly allocated output.
 */
module ChannelMapping {
  import opened ImageTypes
  import opened Padding
  import opened Convolution
  import opened MedianFiltering
  import opened EdgeDetection

  /** The single-channel filters of Filters.py, with the keyword arguments they take. */
  datatype ChannelFilter =
    | Correlation(kernel: seq<seq<real>>)
    | Mean(size: nat)
    | Sharpen
    | Median(ksize: nat)
    | EdgeMagnitude(angles: seq<string>)

  /** The arguments each filter needs. */
  predicate ValidFilter(f: ChannelFilter) {
    match f
    case Correlation(k) => IsKernel(k)
    case Mean(size) => size >= 1
    case Sharpen => true
    case Median(ksize) => ksize >= 1
    case EdgeMagnitude(_) => true
  }

  function ToReal(g: seq<seq<int>>): (r: seq<seq<real>>)
    ensures |r| == |g| && forall i :: 0 <= i < |g| ==> |r[i]| == |g[i]|
    ensures forall i, j :: 0 <= i < |g| && 0 <= j < |g[i]| ==> r[i][j] == g[i][j] as real
  {
    seq(|g|, i requires 0 <= i < |g| => seq(|g[i]|, j requires 0 <= j < |g[i]| => g[i][j] as real))
  }

  /**
   * What the filter returns for one channel. Only Sobel can fail, and only
   * on an angle outside SOBEL_KERNELS; every result has the channel's shape.
   */
  function FilterOutput(f: ChannelFilter, ch: seq<seq<int>>): (r: Result<seq<seq<real>>, string>)
    requires IsRect(ch) && ValidFilter(f)
    ensures r.Err? <==> f.EdgeMagnitude? && !AllKnown(f.angles)
    ensures r.Err? ==> r.error == FirstUnknown(f.angles)
    ensures r.Ok? ==> |r.value| == |ch| && RowsOf(r.value, Width(ch))
  {
    match f
    case Correlation(k) => Ok(Correlate(ch, k))
    case Mean(size) => Ok(Correlate(ch, MeanKernel(size)))
    case Sharpen => assert IsKernel(SharpenKernel); Ok(Correlate(ch, SharpenKernel))
    case Median(ksize) => Ok(ToReal(MedianImage(ch, ksize)))
    case EdgeMagnitude(angles) =>
      if AllKnown(angles) then Ok(ToReal(SobelImage(ch, angles))) else Err(FirstUnknown(angles))
  }

  /** Calls the filter's own method on one channel. */
  method RunFilter(ch: seq<seq<int>>, f: ChannelFilter) returns (r: Result<seq<seq<real>>, string>)
    requires IsRect(ch) && ValidFilter(f)
    ensures r == FilterOutput(f, ch)
  {
    match f {
      case Correlation(k) =>
        var out := Convolve2d(ch, k);
        Convolve2dGrid(ch, k, out);
        r := Ok(Grid(out));
      case Mean(size) =>
        var out := MeanFilter(ch, size);
        Convolve2dGrid(ch, MeanKernel(size), out);
        r := Ok(Grid(out));
      case Sharpen =>
        var out := SharpenFilter(ch);
        Convolve2dGrid(ch, SharpenKernel, out);
        r := Ok(Grid(out));
      case Median(ksize) =>
        var out := MedianFilter(ch, ksize);
        MedianGrid(ch, ksize, out);
        r := Ok(ToReal(Grid(out)));
      case EdgeMagnitude(angles) =>
        var m := Sobel(ch, angles);
        r := if m.Ok? then Ok(ToReal(m.value)) else Err(m.error);
    }
  }

  /** An H x W image of three samples per pixel. */
  predicate IsRgbImage(image: seq<seq<seq<int>>>) {
    IsRect(image) && forall i, j :: 0 <= i < |image| && 0 <= j < |image[i]| ==> |image[i][j]| == 3
  }

  /** image[:, :, c]. */
  function ChannelOf(image: seq<seq<seq<int>>>, c: nat): (ch: seq<seq<int>>)
    requires IsRgbImage(image) && c < 3
    ensures IsRect(ch) && |ch| == |image| && Width(ch) == Width(image)
  {
    seq(|image|, i requires 0 <= i < |image| =>
      seq(Width(image), j requires 0 <= j < Width(image) => image[i][j][c]))
  }

  /** out[:, :, c] = values, leaving the other channels alone. */
  method WriteChannel(out: array3<real>, c: nat, values: seq<seq<real>>)
    requires c < out.Length2 && |values| == out.Length0 && RowsOf(values, out.Length1)
    modifies out
    ensures forall i, j, e :: 0 <= i < out.Length0 && 0 <= j < out.Length1 && 0 <= e < out.Length2 ==>
      out[i, j, e] == if e == c then values[i][j] else old(out[i, j, e])
  {
    forall i, j | 0 <= i < out.Length0 && 0 <= j < out.Length1 {
      out[i, j, c] := values[i][j];
    }
  }

  /**
   * apply_filter_rgb: channel c of the output is the filter applied to
   * channel c of the input, for c = 0, 1, 2, and to nothing else.
   */
  method ApplyFilterRgb(image: seq<seq<seq<int>>>, f: ChannelFilter) returns (r: Result<array3<real>, string>)
    requires IsRgbImage(image) && ValidFilter(f)
    ensures r.Err? <==> f.EdgeMagnitude? && !AllKnown(f.angles)
    ensures r.Err? ==> r.error == FirstUnknown(f.angles)
    ensures r.Ok? ==> fresh(r.value)
    ensures r.Ok? ==> r.value.Length0 == |image| && r.value.Length1 == Width(image) && r.value.Length2 == 3
    ensures r.Ok? ==> forall c :: 0 <= c < 3 ==> FilterOutput(f, ChannelOf(image, c)).Ok?
    ensures r.Ok? ==> forall i, j, c :: 0 <= i < |image| && 0 <= j < Width(image) && 0 <= c < 3 ==>
      r.value[i, j, c] == FilterOutput(f, ChannelOf(image, c)).value[i][j]
  {
    var h, w := |image|, Width(image);
    ghost var expected := seq(3, e requires 0 <= e < 3 => FilterOutput(f, ChannelOf(image, e)));
    var out := new real[h, w, 3]((_, _, _) => 0.0);
    for c := 0 to 3
      invariant forall e :: 0 <= e < c ==> expected[e].Ok?
      invariant forall i, j, e :: 0 <= i < h && 0 <= j < w && 0 <= e < c ==>
        out[i, j, e] == expected[e].value[i][j]
    {
      var result := RunFilter(ChannelOf(image, c), f);
      assert result == expected[c];
      if result.Err? {
        return Err(result.error);
      }
      WriteChannel(out, c, result.value);
    }
    assert expected[0] == FilterOutput(f, ChannelOf(image, 0)) && expected[0].Ok?;
    r := Ok(out);
  }
}
