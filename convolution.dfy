/**
 * The filtering engine of Filters.py: convolve2d, a zero-padded 2-D
 * correlation (the kernel is not flipped), and the two linear filters built
 * on it, mean_filter and sharpen_filter.
 *
 * Kernels are `real` matrices: the sharpen and Sobel kernels hold integers and
 * the mean kernel holds the exact rational 1/size^2.
 */
module Convolution {
  import opened Padding

  /** A kernel is a non-empty rectangular matrix of weights. */
  predicate IsKernel(k: seq<seq<real>>) {
    |k| >= 1 && Width(k) >= 1 && IsRect(k)
  }

  /** Sum of the products of one row of samples with one row of weights. */
  function RowDot(x: seq<int>, y: seq<real>): real
    requires |x| == |y|
  {
    if |x| == 0 then 0.0 else x[0] as real * y[0] + RowDot(x[1..], y[1..])
  }

  /** np.sum(window * kernel): the sum of the elementwise products of two blocks of one shape. */
  function Dot(w: seq<seq<int>>, k: seq<seq<real>>): real
    requires |w| == |k| && forall a :: 0 <= a < |w| ==> |w[a]| == |k[a]|
  {
    if |w| == 0 then 0.0 else RowDot(w[0], k[0]) + Dot(w[1..], k[1..])
  }

  /** Output pixel (i, j) of convolve2d: the padded window at (i, j) weighted by the kernel. */
  function CorrelateAt(g: seq<seq<int>>, k: seq<seq<real>>, i: nat, j: nat): real
    requires IsRect(g) && IsKernel(k) && i < |g| && j < Width(g)
  {
    Dot(PaddedWindow(g, i, j, |k|, Width(k)), k)
  }

  /** The whole output of convolve2d, as a value. */
  function Correlate(g: seq<seq<int>>, k: seq<seq<real>>): (r: seq<seq<real>>)
    requires IsRect(g) && IsKernel(k)
    ensures |r| == |g| && RowsOf(r, Width(g))
  {
    seq(|g|, i requires 0 <= i < |g| =>
      seq(Width(g), j requires 0 <= j < Width(g) => CorrelateAt(g, k, i, j)))
  }

  /**
   * convolve2d: allocate an H x W output of zeros, then fill it pixel by
   * pixel with the kernel-weighted sum of the zero-padded window.
   */
  method Convolve2d(image: seq<seq<int>>, kernel: seq<seq<real>>) returns (out: array2<real>)
    requires IsRect(image) && IsKernel(kernel)
    ensures fresh(out)
    ensures out.Length0 == |image| && out.Length1 == Width(image)
    ensures forall i, j :: 0 <= i < |image| && 0 <= j < Width(image) ==>
      out[i, j] == CorrelateAt(image, kernel, i, j)
  {
    var kh, kw := |kernel|, Width(kernel);
    var ph, pw := kh / 2, kw / 2;
    var padded := Pad(image, ph, pw);
    var h, w := |image|, Width(image);
    out := new real[h, w]((_, _) => 0.0);
    for i := 0 to h
      invariant forall r, c :: 0 <= r < i && 0 <= c < w ==> out[r, c] == CorrelateAt(image, kernel, r, c)
    {
      for j := 0 to w
        invariant forall r, c :: 0 <= r < i && 0 <= c < w ==> out[r, c] == CorrelateAt(image, kernel, r, c)
        invariant forall c :: 0 <= c < j ==> out[i, c] == CorrelateAt(image, kernel, i, c)
      {
        out[i, j] := Dot(Window(padded, i, j, kh, kw), kernel);
      }
    }
  }

  /** The output array of convolve2d holds exactly the correlation. */
  lemma Convolve2dGrid(image: seq<seq<int>>, kernel: seq<seq<real>>, out: array2<real>)
    requires IsRect(image) && IsKernel(kernel)
    requires out.Length0 == |image| && out.Length1 == Width(image)
    requires forall i, j :: 0 <= i < |image| && 0 <= j < Width(image) ==>
      out[i, j] == CorrelateAt(image, kernel, i, j)
    ensures Grid(out) == Correlate(image, kernel)
  {
    var g, c := Grid(out), Correlate(image, kernel);
    forall i | 0 <= i < |image| ensures g[i] == c[i] {
      assert |g[i]| == |c[i]| == Width(image);
    }
  }

  // ---------------------------------------------------------------------------
  // The engine's algebra
  // ---------------------------------------------------------------------------

  /** Sum of the weights of a kernel. */
  function KernelSum(k: seq<seq<real>>): real {
    if |k| == 0 then 0.0 else RowWeight(k[0]) + KernelSum(k[1..])
  }

  function RowWeight(y: seq<real>): real {
    if |y| == 0 then 0.0 else y[0] + RowWeight(y[1..])
  }

  /** Sum of the samples of a block. */
  function BlockSum(w: seq<seq<int>>): int {
    if |w| == 0 then 0 else RowSum(w[0]) + BlockSum(w[1..])
  }

  function RowSum(x: seq<int>): int {
    if |x| == 0 then 0 else x[0] + RowSum(x[1..])
  }

  /** Output pixel (i, j) is the correlation sum over the zero-extended neighbourhood of (i, j). */
  lemma CorrelateAtNeighbourhood(g: seq<seq<int>>, k: seq<seq<real>>, i: nat, j: nat)
    requires IsRect(g) && IsKernel(k) && i < |g| && j < Width(g)
    ensures CorrelateAt(g, k, i, j) == Dot(Neighbourhood(g, i, j, |k|, Width(k)), k)
  {
    PaddedWindowIsNeighbourhood(g, i, j, |k|, Width(k));
  }

  /** A block of one constant sample `v` weighs `v` times the kernel's sum. */
  lemma {:induction false} DotConstantBlock(w: seq<seq<int>>, k: seq<seq<real>>, v: int)
    requires |w| == |k| && forall a :: 0 <= a < |w| ==> |w[a]| == |k[a]|
    requires forall a, b :: 0 <= a < |w| && 0 <= b < |w[a]| ==> w[a][b] == v
    ensures Dot(w, k) == v as real * KernelSum(k)
  {
    if |w| > 0 {
      RowDotConstant(w[0], k[0], v);
      DotConstantBlock(w[1..], k[1..], v);
    }
  }

  lemma {:induction false} RowDotConstant(x: seq<int>, y: seq<real>, v: int)
    requires |x| == |y| && forall b :: 0 <= b < |x| ==> x[b] == v
    ensures RowDot(x, y) == v as real * RowWeight(y)
  {
    if |x| > 0 {
      RowDotConstant(x[1..], y[1..], v);
    }
  }

  /** A kernel of one constant weight `c` scales the block's sum by `c`. */
  lemma {:induction false} DotConstantKernel(w: seq<seq<int>>, k: seq<seq<real>>, c: real)
    requires |w| == |k| && forall a :: 0 <= a < |w| ==> |w[a]| == |k[a]|
    requires forall a, b :: 0 <= a < |k| && 0 <= b < |k[a]| ==> k[a][b] == c
    ensures Dot(w, k) == c * BlockSum(w) as real
  {
    if |w| > 0 {
      RowDotConstantWeight(w[0], k[0], c);
      DotConstantKernel(w[1..], k[1..], c);
    }
  }

  lemma {:induction false} RowDotConstantWeight(x: seq<int>, y: seq<real>, c: real)
    requires |x| == |y| && forall b :: 0 <= b < |y| ==> y[b] == c
    ensures RowDot(x, y) == c * RowSum(x) as real
  {
    if |x| > 0 {
      RowDotConstantWeight(x[1..], y[1..], c);
    }
  }

  /** An all-zero kernel gives an all-zero output. */
  lemma ZeroKernel(g: seq<seq<int>>, k: seq<seq<real>>)
    requires IsRect(g) && IsKernel(k)
    requires forall a, b :: 0 <= a < |k| && 0 <= b < |k[a]| ==> k[a][b] == 0.0
    ensures forall i, j :: 0 <= i < |g| && 0 <= j < Width(g) ==> Correlate(g, k)[i][j] == 0.0
  {
    forall i, j | 0 <= i < |g| && 0 <= j < Width(g) ensures CorrelateAt(g, k, i, j) == 0.0 {
      DotConstantKernel(PaddedWindow(g, i, j, |k|, Width(k)), k, 0.0);
    }
  }

  /** A 3 x 3 weighted sum written out term by term. */
  lemma Dot3(w: seq<seq<int>>, k: seq<seq<real>>)
    requires |w| == 3 && |k| == 3 && RowsOf(w, 3) && RowsOf(k, 3)
    ensures Dot(w, k) ==
      w[0][0] as real * k[0][0] + w[0][1] as real * k[0][1] + w[0][2] as real * k[0][2] +
      w[1][0] as real * k[1][0] + w[1][1] as real * k[1][1] + w[1][2] as real * k[1][2] +
      w[2][0] as real * k[2][0] + w[2][1] as real * k[2][1] + w[2][2] as real * k[2][2]
  {
    RowDot3(w[0], k[0]);
    RowDot3(w[1], k[1]);
    RowDot3(w[2], k[2]);
    assert Dot(w[2..], k[2..]) == RowDot(w[2], k[2]) + Dot(w[3..], k[3..]);
    assert Dot(w[1..], k[1..]) == RowDot(w[1], k[1]) + Dot(w[2..], k[2..]);
  }

  lemma RowDot3(x: seq<int>, y: seq<real>)
    requires |x| == 3 && |y| == 3
    ensures RowDot(x, y) == x[0] as real * y[0] + x[1] as real * y[1] + x[2] as real * y[2]
  {
    assert RowDot(x[2..], y[2..]) == x[2] as real * y[2] + RowDot(x[3..], y[3..]);
    assert RowDot(x[1..], y[1..]) == x[1] as real * y[1] + RowDot(x[2..], y[2..]);
  }

  const IdentityKernel: seq<seq<real>> := [[0.0, 0.0, 0.0], [0.0, 1.0, 0.0], [0.0, 0.0, 0.0]]

  /** The 3 x 3 kernel with a single 1 at its centre returns the image unchanged. */
  lemma IdentityKernelKeepsImage(g: seq<seq<int>>)
    requires IsRect(g)
    ensures IsKernel(IdentityKernel)
    ensures Correlate(g, IdentityKernel) == seq(|g|, i requires 0 <= i < |g| =>
      seq(Width(g), j requires 0 <= j < Width(g) => g[i][j] as real))
  {
    var k := IdentityKernel;
    assert IsKernel(k);
    var r := Correlate(g, k);
    forall i | 0 <= i < |g| ensures r[i] == seq(Width(g), j requires 0 <= j < Width(g) => g[i][j] as real) {
      assert |g[i]| == Width(g);
      forall j | 0 <= j < Width(g) ensures r[i][j] == g[i][j] as real {
        Dot3(PaddedWindow(g, i, j, 3, 3), k);
        PaddedWindowAt(g, i, j, 3, 3, 1, 1);
      }
    }
  }

  // ---------------------------------------------------------------------------
  // mean_filter
  // ---------------------------------------------------------------------------

  /** np.ones((size, size)) / (size * size). */
  function MeanKernel(size: nat): (k: seq<seq<real>>)
    requires size >= 1
    ensures IsKernel(k) && |k| == size && Width(k) == size
  {
    seq(size, _ => seq(size, _ => 1.0 / (size * size) as real))
  }

  /** The sum of the zero-padded size x size window of (i, j), over size^2. */
  function BoxAverage(g: seq<seq<int>>, size: nat, i: nat, j: nat): real
    requires IsRect(g) && size >= 1 && i < |g| && j < Width(g)
  {
    BlockSum(PaddedWindow(g, i, j, size, size)) as real / (size * size) as real
  }

  /** mean_filter: the zero-padded box average. The result is not clamped. */
  method MeanFilter(image: seq<seq<int>>, size: nat) returns (out: array2<real>)
    requires IsRect(image) && size >= 1
    ensures out.Length0 == |image| && out.Length1 == Width(image)
    ensures forall i, j :: 0 <= i < |image| && 0 <= j < Width(image) ==>
      out[i, j] == CorrelateAt(image, MeanKernel(size), i, j)
    ensures forall i, j :: 0 <= i < |image| && 0 <= j < Width(image) ==>
      out[i, j] == BoxAverage(image, size, i, j)
  {
    out := Convolve2d(image, MeanKernel(size));
    forall i, j | 0 <= i < |image| && 0 <= j < Width(image)
      ensures out[i, j] == BoxAverage(image, size, i, j)
    {
      MeanAt(image, size, i, j);
    }
  }

  /** One pixel of the box average: the window's sum over size^2. */
  lemma MeanAt(g: seq<seq<int>>, size: nat, i: nat, j: nat)
    requires IsRect(g) && size >= 1 && i < |g| && j < Width(g)
    ensures CorrelateAt(g, MeanKernel(size), i, j) == BoxAverage(g, size, i, j)
  {
    var n := (size * size) as real;
    var w, k := PaddedWindow(g, i, j, size, size), MeanKernel(size);
    assert forall a, b :: 0 <= a < |k| && 0 <= b < |k[a]| ==> k[a][b] == 1.0 / n;
    DotUniformKernel(w, k, n);
    assert CorrelateAt(g, k, i, j) == Dot(w, k);
  }

  /** A kernel whose every weight is 1/n averages the block over n. */
  lemma DotUniformKernel(w: seq<seq<int>>, k: seq<seq<real>>, n: real)
    requires n > 0.0
    requires |w| == |k| && forall a :: 0 <= a < |w| ==> |w[a]| == |k[a]|
    requires forall a, b :: 0 <= a < |k| && 0 <= b < |k[a]| ==> k[a][b] == 1.0 / n
    ensures Dot(w, k) == BlockSum(w) as real / n
  {
    DotConstantKernel(w, k, 1.0 / n);
    ScaleByInverse(BlockSum(w) as real, n);
  }

  lemma ScaleByInverse(x: real, n: real)
    requires n > 0.0
    ensures 1.0 / n * x == x / n
  {
  }

  /** A block whose samples all lie in [lo, hi] sums to between count*lo and count*hi. */
  lemma {:induction false} BlockSumBounds(w: seq<seq<int>>, n: nat, lo: int, hi: int)
    requires RowsOf(w, n)
    requires forall a, b :: 0 <= a < |w| && 0 <= b < n ==> lo <= w[a][b] <= hi
    ensures |w| * (n * lo) <= BlockSum(w) <= |w| * (n * hi)
  {
    if |w| > 0 {
      RowSumBounds(w[0], lo, hi);
      BlockSumBounds(w[1..], n, lo, hi);
      var tl, th := n * lo, n * hi;
      assert |w| * tl == tl + (|w| - 1) * tl;
      assert |w| * th == th + (|w| - 1) * th;
    }
  }

  lemma {:induction false} RowSumBounds(x: seq<int>, lo: int, hi: int)
    requires forall b :: 0 <= b < |x| ==> lo <= x[b] <= hi
    ensures |x| * lo <= RowSum(x) <= |x| * hi
  {
    if |x| > 0 {
      RowSumBounds(x[1..], lo, hi);
    }
  }

  /**
   * The box average lies between any lower and upper bound of its zero-padded
   * window, in particular between the window's minimum and maximum.
   */
  lemma MeanWithinWindow(g: seq<seq<int>>, size: nat, i: nat, j: nat, lo: int, hi: int)
    requires IsRect(g) && size >= 1 && i < |g| && j < Width(g)
    requires forall a, b :: 0 <= a < size && 0 <= b < size ==>
      lo <= PaddedWindow(g, i, j, size, size)[a][b] <= hi
    ensures lo as real <= CorrelateAt(g, MeanKernel(size), i, j) <= hi as real
  {
    var w := PaddedWindow(g, i, j, size, size);
    MeanAt(g, size, i, j);
    BlockSumBounds(w, size, lo, hi);
    Associate(size, size, lo);
    Associate(size, size, hi);
    QuotientBounds(BlockSum(w), size * size, lo, hi);
  }

  lemma QuotientBounds(s: int, n: int, lo: int, hi: int)
    requires n > 0 && n * lo <= s <= n * hi
    ensures lo as real <= s as real / n as real <= hi as real
  {
  }

  lemma Associate(a: int, b: int, c: int)
    ensures a * (b * c) == (a * b) * c
  {
  }

  /** Over an 8-bit image the box average stays in [0, 255]. */
  lemma MeanInByteRange(g: seq<seq<int>>, size: nat, i: nat, j: nat)
    requires IsRect(g) && size >= 1 && i < |g| && j < Width(g)
    requires forall r, c :: 0 <= r < |g| && 0 <= c < Width(g) ==> 0 <= g[r][c] <= 255
    ensures 0.0 <= CorrelateAt(g, MeanKernel(size), i, j) <= 255.0
  {
    forall a, b | 0 <= a < size && 0 <= b < size
      ensures 0 <= PaddedWindow(g, i, j, size, size)[a][b] <= 255
    {
      PaddedWindowAt(g, i, j, size, size, a, b);
    }
    MeanWithinWindow(g, size, i, j, 0, 255);
  }

  // ---------------------------------------------------------------------------
  // sharpen_filter
  // ---------------------------------------------------------------------------

  const SharpenKernel: seq<seq<real>> := [[0.0, -1.0, 0.0], [-1.0, 5.0, -1.0], [0.0, -1.0, 0.0]]

  /** sharpen_filter: correlation with the fixed 3 x 3 sharpening kernel. */
  method SharpenFilter(image: seq<seq<int>>) returns (out: array2<real>)
    requires IsRect(image)
    ensures IsKernel(SharpenKernel)
    ensures out.Length0 == |image| && out.Length1 == Width(image)
    ensures forall i, j :: 0 <= i < |image| && 0 <= j < Width(image) ==>
      out[i, j] == CorrelateAt(image, SharpenKernel, i, j)
    ensures forall i, j :: 0 <= i < |image| && 0 <= j < Width(image) ==>
      out[i, j] == SharpenValue(image, i, j) as real
  {
    assert IsKernel(SharpenKernel);
    out := Convolve2d(image, SharpenKernel);
    forall i, j | 0 <= i < |image| && 0 <= j < Width(image)
      ensures out[i, j] == SharpenValue(image, i, j) as real
    {
      SharpenAt(image, i, j);
    }
  }

  /** Five times the centre minus its four edge neighbours, neighbours outside the image counting as 0. */
  function SharpenValue(g: seq<seq<int>>, i: int, j: int): int
    requires IsRect(g)
  {
    5 * ZeroAt(g, i, j) - ZeroAt(g, i - 1, j) - ZeroAt(g, i + 1, j) - ZeroAt(g, i, j - 1) - ZeroAt(g, i, j + 1)
  }

  lemma SharpenAt(g: seq<seq<int>>, i: nat, j: nat)
    requires IsRect(g) && i < |g| && j < Width(g)
    ensures IsKernel(SharpenKernel)
    ensures CorrelateAt(g, SharpenKernel, i, j) == SharpenValue(g, i, j) as real
  {
    assert IsKernel(SharpenKernel);
    var w := PaddedWindow(g, i, j, 3, 3);
    Dot3(w, SharpenKernel);
    PaddedWindowAt(g, i, j, 3, 3, 0, 1);
    PaddedWindowAt(g, i, j, 3, 3, 1, 0);
    PaddedWindowAt(g, i, j, 3, 3, 1, 1);
    PaddedWindowAt(g, i, j, 3, 3, 1, 2);
    PaddedWindowAt(g, i, j, 3, 3, 2, 1);
  }

  /** The sharpened values are not clamped: they leave [0, 255] on both sides. */
  lemma SharpenLeavesByteRange()
    ensures CorrelateAt([[0, 255]], SharpenKernel, 0, 0) == -255.0
    ensures CorrelateAt([[0, 255]], SharpenKernel, 0, 1) == 1275.0
  {
    var g := [[0, 255]];
    assert IsRect(g);
    SharpenAt(g, 0, 0);
    SharpenAt(g, 0, 1);
  }
}
