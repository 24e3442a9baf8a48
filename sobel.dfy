/**
 * Sobel edge detection of Filters.py: the directional responses of
 * convolve2d with the SOBEL_KERNELS, combined per pixel as
 * min(255, floor(sqrt(sum of squares))).
 */
module EdgeDetection {
  import opened ImageTypes
  import opened Padding
  import opened Convolution

  /** The angles sobel uses when the caller names none. */
  const DefaultAngles: seq<string> := ["0", "90"]

  /**
   * SOBEL_KERNELS[angle]: one 3 x 3 kernel per direction; None stands for the
   * KeyError of any other key. Every kernel sums to zero.
   */
  function SobelKernel(angle: string): (k: Option<seq<seq<real>>>)
    ensures k.Some? <==> angle in {"0", "45", "90", "135"}
    ensures k.Some? ==> IsKernel(k.value) && |k.value| == 3 && RowsOf(k.value, 3)
    ensures k.Some? ==> KernelSum(k.value) == 0.0
  {
    if angle == "0" then Some([[-1.0, 0.0, 1.0], [-2.0, 0.0, 2.0], [-1.0, 0.0, 1.0]])
    else if angle == "45" then Some([[0.0, 1.0, 2.0], [-1.0, 0.0, 1.0], [-2.0, -1.0, 0.0]])
    else if angle == "90" then Some([[1.0, 2.0, 1.0], [0.0, 0.0, 0.0], [-1.0, -2.0, -1.0]])
    else if angle == "135" then Some([[2.0, 1.0, 0.0], [1.0, 0.0, -1.0], [0.0, -1.0, -2.0]])
    else None
  }

  /** The integer square root: the largest m with m * m <= n. */
  function ISqrt(n: nat): (r: nat)
    ensures r * r <= n < (r + 1) * (r + 1)
  {
    if n < 4 then (if n == 0 then 0 else 1)
    else
      var h := ISqrt(n / 4);
      ISqrtStep(n, h);
      var s := 2 * h;
      if (s + 1) * (s + 1) <= n then s + 1 else s
  }

  /** Doubling the root of n / 4 brackets the root of n. */
  lemma ISqrtStep(n: nat, h: nat)
    requires n >= 4 && h * h <= n / 4 < (h + 1) * (h + 1)
    ensures (2 * h) * (2 * h) <= n < (2 * h + 2) * (2 * h + 2)
  {
    var q := n / 4;
    var lo, hi := h * h, (h + 1) * (h + 1);
    assert 4 * q <= n < 4 * q + 4;
    assert (2 * h) * (2 * h) == 4 * lo;
    assert (2 * h + 2) * (2 * h + 2) == 4 * hi;
    assert lo <= q && q + 1 <= hi;
  }

  /** floor(sqrt(x)) of a non-negative real. */
  function FloorSqrt(x: real): (r: nat)
    requires x >= 0.0
    ensures (r * r) as real <= x < ((r + 1) * (r + 1)) as real
  {
    ISqrt(x.Floor)
  }

  /** Every angle names a kernel of SOBEL_KERNELS. */
  predicate AllKnown(angles: seq<string>) {
    forall d :: 0 <= d < |angles| ==> SobelKernel(angles[d]).Some?
  }

  /** The first angle SOBEL_KERNELS does not hold: the key of the KeyError. */
  function FirstUnknown(angles: seq<string>): (a: string)
    requires !AllKnown(angles)
    ensures a in angles && SobelKernel(a).None?
  {
    if SobelKernel(angles[0]).None? then angles[0] else FirstUnknown(angles[1..])
  }

  lemma {:induction false} FirstUnknownAt(angles: seq<string>, d: nat)
    requires d < |angles| && SobelKernel(angles[d]).None?
    requires forall e :: 0 <= e < d ==> SobelKernel(angles[e]).Some?
    ensures FirstUnknown(angles) == angles[d]
  {
    if d > 0 {
      FirstUnknownAt(angles[1..], d - 1);
    }
  }

  /** The first unknown angle after a known prefix is the one that raises. */
  lemma FirstUnknownAfter(angles: seq<string>, d: nat)
    requires d < |angles| && AllKnown(angles[..d]) && SobelKernel(angles[d]).None?
    ensures !AllKnown(angles) && FirstUnknown(angles) == angles[d]
  {
    forall e | 0 <= e < d ensures SobelKernel(angles[e]).Some? {
      assert angles[..d][e] == angles[e];
    }
    FirstUnknownAt(angles, d);
  }

  /** Response maps of one size. */
  predicate Shaped(rs: seq<seq<seq<real>>>, h: nat, w: nat) {
    forall d :: 0 <= d < |rs| ==> |rs[d]| == h && RowsOf(rs[d], w)
  }

  /** The response of every requested direction, in order. */
  function Responses(g: seq<seq<int>>, angles: seq<string>): (rs: seq<seq<seq<real>>>)
    requires IsRect(g) && AllKnown(angles)
    ensures |rs| == |angles| && Shaped(rs, |g|, Width(g))
  {
    seq(|angles|, d requires 0 <= d < |angles| => Correlate(g, SobelKernel(angles[d]).value))
  }

  /** One more known angle appends its response. */
  lemma ResponsesExtend(g: seq<seq<int>>, angles: seq<string>, d: nat)
    requires IsRect(g) && d < |angles| && AllKnown(angles[..d]) && SobelKernel(angles[d]).Some?
    ensures AllKnown(angles[..d + 1])
    ensures Responses(g, angles[..d + 1])
      == Responses(g, angles[..d]) + [Correlate(g, SobelKernel(angles[d]).value)]
  {
    var prefix, longer := angles[..d], angles[..d + 1];
    assert forall e :: 0 <= e < d ==> longer[e] == prefix[e];
    assert longer[d] == angles[d];
  }

  /** sum(r * r for r in responses) at one pixel. */
  function SquareSum(rs: seq<seq<seq<real>>>, i: nat, j: nat): (s: real)
    requires forall d :: 0 <= d < |rs| ==> i < |rs[d]| && j < |rs[d][i]|
    ensures s >= 0.0
  {
    if |rs| == 0 then 0.0 else rs[0][i][j] * rs[0][i][j] + SquareSum(rs[1..], i, j)
  }

  /** np.clip(np.sqrt(sum of squares), 0, 255).astype(uint8), pixel by pixel. */
  function Magnitude(rs: seq<seq<seq<real>>>, h: nat, w: nat): (m: seq<seq<int>>)
    requires Shaped(rs, h, w)
    ensures |m| == h && RowsOf(m, w)
    ensures forall i, j :: 0 <= i < h && 0 <= j < w ==>
      0 <= m[i][j] <= 255 && (m[i][j] * m[i][j]) as real <= SquareSum(rs, i, j)
    ensures forall i, j :: 0 <= i < h && 0 <= j < w && m[i][j] < 255 ==>
      SquareSum(rs, i, j) < ((m[i][j] + 1) * (m[i][j] + 1)) as real
  {
    var m := seq(h, i requires 0 <= i < h =>
      seq(w, j requires 0 <= j < w => Min(255, FloorSqrt(SquareSum(rs, i, j)))));
    assert forall i, j :: 0 <= i < h && 0 <= j < w ==>
      0 <= m[i][j] <= 255 && (m[i][j] * m[i][j]) as real <= SquareSum(rs, i, j)
      && (m[i][j] < 255 ==> SquareSum(rs, i, j) < ((m[i][j] + 1) * (m[i][j] + 1)) as real) by {
      forall i, j | 0 <= i < h && 0 <= j < w
        ensures 0 <= m[i][j] <= 255 && (m[i][j] * m[i][j]) as real <= SquareSum(rs, i, j)
        ensures m[i][j] < 255 ==> SquareSum(rs, i, j) < ((m[i][j] + 1) * (m[i][j] + 1)) as real
      {
        ClippedRoot(SquareSum(rs, i, j));
      }
    }
    m
  }

  /** What sobel returns for known angles. */
  function SobelImage(g: seq<seq<int>>, angles: seq<string>): seq<seq<int>>
    requires IsRect(g) && AllKnown(angles)
  {
    Magnitude(Responses(g, angles), |g|, Width(g))
  }

  /**
   * sobel: look every angle up (the first unknown one raises KeyError), run
   * convolve2d with its kernel, then combine the responses.
   */
  method Sobel(image: seq<seq<int>>, angles: seq<string>) returns (r: Result<seq<seq<int>>, string>)
    requires IsRect(image)
    ensures r.Err? <==> !AllKnown(angles)
    ensures r.Err? ==> r.error == FirstUnknown(angles)
    ensures r.Ok? ==> r.value == SobelImage(image, angles)
  {
    var responses := SobelResponses(image, angles);
    if responses.Err? {
      return Err(responses.error);
    }
    r := Ok(Magnitude(responses.value, |image|, Width(image)));
  }

  /** The loop of sobel: one convolve2d response per angle, in order. */
  method SobelResponses(image: seq<seq<int>>, angles: seq<string>) returns (r: Result<seq<seq<seq<real>>>, string>)
    requires IsRect(image)
    ensures r.Err? <==> !AllKnown(angles)
    ensures r.Err? ==> r.error == FirstUnknown(angles)
    ensures r.Ok? ==> r.value == Responses(image, angles)
  {
    var responses: seq<seq<seq<real>>> := [];
    for d := 0 to |angles|
      invariant AllKnown(angles[..d])
      invariant responses == Responses(image, angles[..d])
    {
      var kernel := SobelKernel(angles[d]);
      if kernel.None? {
        FirstUnknownAfter(angles, d);
        return Err(angles[d]);
      }
      var response := Convolve2d(image, kernel.value);
      Convolve2dGrid(image, kernel.value, response);
      ResponsesExtend(image, angles, d);
      responses := responses + [Grid(response)];
    }
    assert angles[..|angles|] == angles;
    r := Ok(responses);
  }

  /**
   * Each output pixel is min(255, floor(sqrt(S))) for the sum of squared
   * responses S: an 8-bit value m with m * m <= S, and S < (m + 1)^2 unless
   * the magnitude saturated.
   */
  lemma SobelIsClippedRoot(g: seq<seq<int>>, angles: seq<string>, i: nat, j: nat)
    requires IsRect(g) && AllKnown(angles) && i < |g| && j < Width(g)
    ensures var m, s := SobelImage(g, angles)[i][j], SquareSum(Responses(g, angles), i, j);
      0 <= m <= 255 && (m * m) as real <= s && (m < 255 ==> s < ((m + 1) * (m + 1)) as real)
  {
  }

  /** min(255, floor(sqrt(s))) is the root of s unless it saturated. */
  lemma ClippedRoot(s: real)
    requires s >= 0.0
    ensures var m := Min(255, FloorSqrt(s));
      0 <= m <= 255 && (m * m) as real <= s && (m < 255 ==> s < ((m + 1) * (m + 1)) as real)
  {
    var root := FloorSqrt(s);
    if root > 255 {
      SquareMonotone(255, root);
    }
  }

  /** Every Sobel response vanishes where the window is uniform, because each kernel sums to zero. */
  lemma ResponseUniform(g: seq<seq<int>>, angle: string, i: nat, j: nat, v: int)
    requires IsRect(g) && SobelKernel(angle).Some? && i < |g| && j < Width(g)
    requires forall a, b :: 0 <= a < 3 && 0 <= b < 3 ==> PaddedWindow(g, i, j, 3, 3)[a][b] == v
    ensures CorrelateAt(g, SobelKernel(angle).value, i, j) == 0.0
  {
    DotConstantBlock(PaddedWindow(g, i, j, 3, 3), SobelKernel(angle).value, v);
  }

  lemma {:induction false} SquareSumZero(rs: seq<seq<seq<real>>>, i: nat, j: nat)
    requires forall d :: 0 <= d < |rs| ==> i < |rs[d]| && j < |rs[d][i]| && rs[d][i][j] == 0.0
    ensures SquareSum(rs, i, j) == 0.0
  {
    if |rs| > 0 {
      SquareSumZero(rs[1..], i, j);
    }
  }

  /**
   * On a uniform image the magnitude is 0 at every pixel whose 3 x 3 window
   * lies inside the image.
   */
  lemma SobelUniformInterior(g: seq<seq<int>>, angles: seq<string>, i: nat, j: nat, v: int)
    requires IsRect(g) && AllKnown(angles)
    requires forall r, c :: 0 <= r < |g| && 0 <= c < Width(g) ==> g[r][c] == v
    requires 1 <= i < |g| - 1 && 1 <= j < Width(g) - 1
    ensures SobelImage(g, angles)[i][j] == 0
  {
    var rs := Responses(g, angles);
    forall a, b | 0 <= a < 3 && 0 <= b < 3 ensures PaddedWindow(g, i, j, 3, 3)[a][b] == v {
      PaddedWindowAt(g, i, j, 3, 3, a, b);
    }
    forall d | 0 <= d < |rs| ensures rs[d][i][j] == 0.0 {
      ResponseUniform(g, angles[d], i, j, v);
    }
    SquareSumZero(rs, i, j);
    assert FloorSqrt(0.0) == 0;
  }

  /** The first response of a 1 x 2 image of value 10 for the angle "0". */
  lemma BorderResponse()
    ensures IsRect([[10, 10]]) && SobelKernel("0").Some?
    ensures CorrelateAt([[10, 10]], SobelKernel("0").value, 0, 0) == 20.0
  {
    var g := [[10, 10]];
    assert IsRect(g);
    var k := SobelKernel("0").value;
    var w := PaddedWindow(g, 0, 0, 3, 3);
    forall a, b | 0 <= a < 3 && 0 <= b < 3 ensures w[a][b] == if a == 1 && b > 0 then 10 else 0 {
      PaddedWindowAt(g, 0, 0, 3, 3, a, b);
    }
    Dot3(w, k);
  }

  lemma RootOf400()
    ensures FloorSqrt(400.0) == 20
  {
    var m := FloorSqrt(400.0);
    assert m * m <= 400 < (m + 1) * (m + 1);
    if m < 20 {
      SquareMonotone(m + 1, 20);
    } else if m > 20 {
      SquareMonotone(21, m);
    }
  }

  lemma SquareMonotone(a: nat, b: nat)
    requires a <= b
    ensures a * a <= b * b
  {
  }

  /** With no angle the sum of squares is 0 everywhere, and so is the magnitude. */
  lemma SobelNoAngles(g: seq<seq<int>>)
    requires IsRect(g)
    ensures forall i, j :: 0 <= i < |g| && 0 <= j < Width(g) ==> SobelImage(g, [])[i][j] == 0
  {
    assert ISqrt(0) == 0;
  }

  /** With the default directions, a uniform image has no edge away from its border. */
  lemma DefaultSobelUniformInterior(g: seq<seq<int>>, i: nat, j: nat, v: int)
    requires IsRect(g)
    requires forall r, c :: 0 <= r < |g| && 0 <= c < Width(g) ==> g[r][c] == v
    requires 1 <= i < |g| - 1 && 1 <= j < Width(g) - 1
    ensures AllKnown(DefaultAngles)
    ensures SobelImage(g, DefaultAngles)[i][j] == 0
  {
    assert SobelKernel(DefaultAngles[0]).Some? && SobelKernel(DefaultAngles[1]).Some?;
    SobelUniformInterior(g, DefaultAngles, i, j, v);
  }

  /**
   * At the border the zero padding creates an edge: a uniform 1 x 2 image of
   * value 10 has magnitude 20 at its first pixel for the angle "0".
   */
  lemma SobelBorderEdge()
    ensures IsRect([[10, 10]]) && AllKnown(["0"])
    ensures SobelImage([[10, 10]], ["0"])[0][0] == 20
  {
    var g := [[10, 10]];
    BorderResponse();
    var rs := Responses(g, ["0"]);
    assert rs[0][0][0] == 20.0;
    assert SquareSum(rs, 0, 0) == 20.0 * 20.0 + SquareSum(rs[1..], 0, 0);
    RootOf400();
  }
}
