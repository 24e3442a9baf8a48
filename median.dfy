/**
 * median_filter of Filters.py: an order statistic over the zero-padded
 * ksize x ksize window of every pixel.
 */
module MedianFiltering {
  import opened Padding

  predicate Sorted(s: seq<int>) {
    forall p, q :: 0 <= p < q < |s| ==> s[p] <= s[q]
  }

  function Insert(x: int, s: seq<int>): (r: seq<int>)
    ensures |r| == |s| + 1
  {
    if s == [] || x <= s[0] then [x] + s else [s[0]] + Insert(x, s[1..])
  }

  /** The ascending order of the samples: the order np.median selects from. */
  function Sort(s: seq<int>): (t: seq<int>)
    ensures |t| == |s|
  {
    if s == [] then [] else Insert(s[0], Sort(s[1..]))
  }

  lemma {:induction false} InsertPermutes(x: int, s: seq<int>)
    ensures multiset(Insert(x, s)) == multiset{x} + multiset(s)
  {
    if s != [] && x > s[0] {
      InsertPermutes(x, s[1..]);
      assert s == [s[0]] + s[1..];
    }
  }

  /** A sample no larger than any element of a sorted sequence can go first. */
  lemma PrependSorted(v: int, t: seq<int>)
    requires Sorted(t) && forall k :: 0 <= k < |t| ==> v <= t[k]
    ensures Sorted([v] + t)
  {
    var u := [v] + t;
    forall p, q | 0 <= p < q < |u| ensures u[p] <= u[q] {
      assert u[q] == t[q - 1];
      if p > 0 {
        assert u[p] == t[p - 1];
      }
    }
  }

  /** Inserting above a lower bound keeps every element above it. */
  lemma {:induction false} InsertLowerBound(x: int, s: seq<int>, lo: int)
    requires lo <= x && forall k :: 0 <= k < |s| ==> lo <= s[k]
    ensures forall k :: 0 <= k < |Insert(x, s)| ==> lo <= Insert(x, s)[k]
  {
    if s != [] && x > s[0] {
      InsertLowerBound(x, s[1..], lo);
      assert Insert(x, s) == [s[0]] + Insert(x, s[1..]);
    }
  }

  lemma {:induction false} InsertSorted(x: int, s: seq<int>)
    requires Sorted(s)
    ensures Sorted(Insert(x, s))
  {
    if s == [] || x <= s[0] {
      PrependSorted(x, s);
    } else {
      InsertSorted(x, s[1..]);
      InsertLowerBound(x, s[1..], s[0]);
      PrependSorted(s[0], Insert(x, s[1..]));
    }
  }

  /** Sort orders its input and keeps exactly its samples. */
  lemma {:induction false} SortSpec(s: seq<int>)
    ensures Sorted(Sort(s)) && multiset(Sort(s)) == multiset(s) && |Sort(s)| == |s|
  {
    if s != [] {
      SortSpec(s[1..]);
      InsertSorted(s[0], Sort(s[1..]));
      InsertPermutes(s[0], Sort(s[1..]));
      assert s == [s[0]] + s[1..];
      assert |multiset(Sort(s))| == |multiset(s)|;
    }
  }

  /** The integer output's truncation toward zero of a half-integer mean. */
  function HalfTowardZero(x: int): int {
    if x >= 0 then x / 2 else -((-x) / 2)
  }

  /**
   * np.median of the samples, as stored into the integer output: the middle
   * order statistic for an odd count, the mean of the two middle ones
   * truncated toward zero for an even count.
   */
  function MedianOf(s: seq<int>): (m: int)
    requires |s| > 0
    ensures |s| % 2 == 1 ==> m in s
  {
    MiddleIsSample(s);
    var t, n := Sort(s), |s|;
    if n % 2 == 1 then t[n / 2] else HalfTowardZero(t[n / 2 - 1] + t[n / 2])
  }

  /** The median lies between any lower and any upper bound of the samples. */
  lemma MedianBounds(s: seq<int>, lo: int, hi: int)
    requires |s| > 0 && forall k :: 0 <= k < |s| ==> lo <= s[k] <= hi
    ensures lo <= MedianOf(s) <= hi
  {
    SortSpec(s);
    var t, n := Sort(s), |s|;
    forall p | 0 <= p < n ensures lo <= t[p] <= hi {
      assert t[p] in multiset(s);
    }
  }

  /** The middle order statistic is one of the samples. */
  lemma MiddleIsSample(s: seq<int>)
    requires |s| > 0
    ensures |Sort(s)| == |s| && Sort(s)[|s| / 2] in s
  {
    SortSpec(s);
    assert Sort(s)[|s| / 2] in multiset(s);
  }

  /**
   * For an even count the median is the truncated mean of the two middle
   * order statistics, so it lies between them.
   */
  lemma MedianEvenBetweenMiddles(s: seq<int>)
    requires |s| > 0 && |s| % 2 == 0
    ensures |Sort(s)| == |s|
    ensures var t, n := Sort(s), |s|;
      MedianOf(s) == HalfTowardZero(t[n / 2 - 1] + t[n / 2]) && t[n / 2 - 1] <= MedianOf(s) <= t[n / 2]
  {
    SortSpec(s);
  }

  lemma FlattenNonEmpty(w: seq<seq<int>>, n: nat)
    requires |w| >= 1 && n >= 1 && RowsOf(w, n)
    ensures |Flatten(w)| >= 1
  {
    assert Flatten(w) == w[0] + Flatten(w[1..]);
  }

  /** The median of the zero-padded ksize x ksize window of pixel (i, j). */
  function MedianAt(g: seq<seq<int>>, ksize: nat, i: nat, j: nat): int
    requires IsRect(g) && ksize >= 1 && i < |g| && j < Width(g)
  {
    var w := PaddedWindow(g, i, j, ksize, ksize);
    FlattenNonEmpty(w, ksize);
    MedianOf(Flatten(w))
  }

  /** The whole output of median_filter, as a value. */
  function MedianImage(g: seq<seq<int>>, ksize: nat): (m: seq<seq<int>>)
    requires IsRect(g) && ksize >= 1
    ensures |m| == |g| && RowsOf(m, Width(g))
  {
    seq(|g|, i requires 0 <= i < |g| =>
      seq(Width(g), j requires 0 <= j < Width(g) => MedianAt(g, ksize, i, j)))
  }

  /**
   * median_filter: allocate an output of the image's shape, then fill it
   * pixel by pixel with the median of the zero-padded window.
   */
  method MedianFilter(image: seq<seq<int>>, ksize: nat) returns (out: array2<int>)
    requires IsRect(image) && ksize >= 1
    ensures fresh(out)
    ensures out.Length0 == |image| && out.Length1 == Width(image)
    ensures forall i, j :: 0 <= i < |image| && 0 <= j < Width(image) ==>
      out[i, j] == MedianAt(image, ksize, i, j)
  {
    var ph := ksize / 2;
    var padded := Pad(image, ph, ph);
    var h, w := |image|, Width(image);
    out := new int[h, w]((_, _) => 0);
    for i := 0 to h
      invariant forall r, c :: 0 <= r < i && 0 <= c < w ==> out[r, c] == MedianAt(image, ksize, r, c)
    {
      FillMedianRow(image, ksize, padded, out, i);
    }
  }

  /** The inner loop of median_filter: row i of the output, from the padded image. */
  method FillMedianRow(image: seq<seq<int>>, ksize: nat, padded: seq<seq<int>>, out: array2<int>, i: nat)
    requires IsRect(image) && ksize >= 1 && i < |image|
    requires padded == Pad(image, ksize / 2, ksize / 2)
    requires out.Length0 == |image| && out.Length1 == Width(image)
    modifies out
    ensures forall r, c :: 0 <= r < out.Length0 && 0 <= c < out.Length1 ==>
      out[r, c] == if r == i then MedianAt(image, ksize, r, c) else old(out[r, c])
  {
    for j := 0 to out.Length1
      invariant forall r, c :: 0 <= r < out.Length0 && 0 <= c < out.Length1 ==>
        out[r, c] == if r == i && c < j then MedianAt(image, ksize, r, c) else old(out[r, c])
    {
      var window := Window(padded, i, j, ksize, ksize);
      FlattenNonEmpty(window, ksize);
      out[i, j] := MedianOf(Flatten(window));
    }
  }

  /** An array filled by MedianFilter holds exactly MedianImage. */
  lemma MedianGrid(image: seq<seq<int>>, ksize: nat, out: array2<int>)
    requires IsRect(image) && ksize >= 1
    requires out.Length0 == |image| && out.Length1 == Width(image)
    requires forall i, j :: 0 <= i < |image| && 0 <= j < Width(image) ==>
      out[i, j] == MedianAt(image, ksize, i, j)
    ensures Grid(out) == MedianImage(image, ksize)
  {
    var g, m := Grid(out), MedianImage(image, ksize);
    forall i | 0 <= i < |image| ensures g[i] == m[i] {
      assert |g[i]| == |m[i]| == Width(image);
    }
  }

  /** Every sample of the padded window lies between lo and hi when the image's do and lo <= 0 <= hi. */
  lemma WindowBounds(g: seq<seq<int>>, ksize: nat, i: nat, j: nat, lo: int, hi: int)
    requires IsRect(g) && ksize >= 1 && i < |g| && j < Width(g) && lo <= 0 <= hi
    requires forall r, c :: 0 <= r < |g| && 0 <= c < Width(g) ==> lo <= g[r][c] <= hi
    ensures forall k :: 0 <= k < |Flatten(PaddedWindow(g, i, j, ksize, ksize))| ==>
      lo <= Flatten(PaddedWindow(g, i, j, ksize, ksize))[k] <= hi
  {
    var w := PaddedWindow(g, i, j, ksize, ksize);
    FlattenElements(w, ksize);
    forall k | 0 <= k < |Flatten(w)| ensures lo <= Flatten(w)[k] <= hi {
      var a, b :| 0 <= a < |w| && 0 <= b < ksize && b < |w[a]| && w[a][b] == Flatten(w)[k];
      PaddedWindowAt(g, i, j, ksize, ksize, a, b);
    }
  }

  /** Over an 8-bit image every output of the median filter is an 8-bit value. */
  lemma MedianInByteRange(g: seq<seq<int>>, ksize: nat, i: nat, j: nat)
    requires IsRect(g) && ksize >= 1 && i < |g| && j < Width(g)
    requires forall r, c :: 0 <= r < |g| && 0 <= c < Width(g) ==> 0 <= g[r][c] <= 255
    ensures 0 <= MedianAt(g, ksize, i, j) <= 255
  {
    var w := PaddedWindow(g, i, j, ksize, ksize);
    FlattenElements(w, ksize);
    WindowBounds(g, ksize, i, j, 0, 255);
    MedianBounds(Flatten(w), 0, 255);
  }

  /** For an odd ksize the output pixel is one of the samples of its zero-padded window. */
  lemma MedianOddFromWindow(g: seq<seq<int>>, ksize: nat, i: nat, j: nat)
    requires IsRect(g) && ksize >= 1 && ksize % 2 == 1 && i < |g| && j < Width(g)
    ensures InBlock(PaddedWindow(g, i, j, ksize, ksize), ksize, MedianAt(g, ksize, i, j))
  {
    var w := PaddedWindow(g, i, j, ksize, ksize);
    FlattenElements(w, ksize);
    var s := Flatten(w);
    OddSquare(ksize);
    var k :| 0 <= k < |s| && s[k] == MedianOf(s);
  }

  lemma OddSquare(k: nat)
    requires k % 2 == 1
    ensures (k * k) % 2 == 1
  {
    var h := k / 2;
    assert k * k == 2 * (2 * h * h + 2 * h) + 1;
  }

  /**
   * On a uniform image a pixel whose whole window lies inside the image keeps
   * its value.
   */
  lemma MedianUniformInterior(g: seq<seq<int>>, ksize: nat, i: nat, j: nat, v: int)
    requires IsRect(g) && ksize >= 1 && i < |g| && j < Width(g)
    requires forall r, c :: 0 <= r < |g| && 0 <= c < Width(g) ==> g[r][c] == v
    requires ksize / 2 <= i && i + ksize - 1 - ksize / 2 < |g|
    requires ksize / 2 <= j && j + ksize - 1 - ksize / 2 < Width(g)
    ensures MedianAt(g, ksize, i, j) == v
  {
    var w := PaddedWindow(g, i, j, ksize, ksize);
    FlattenElements(w, ksize);
    var s := Flatten(w);
    forall k | 0 <= k < |s| ensures s[k] == v {
      var a, b :| 0 <= a < |w| && 0 <= b < ksize && b < |w[a]| && w[a][b] == s[k];
      PaddedWindowAt(g, i, j, ksize, ksize, a, b);
    }
    MedianBounds(s, v, v);
  }

  /**
   * At the border the zero padding outvotes the image: a single pixel of
   * value 7 filters to 0, so a uniform image is not kept there.
   */
  lemma MedianBorderOutvoted()
    ensures IsRect([[7]])
    ensures MedianAt([[7]], 3, 0, 0) == 0
  {
    var g := [[7]];
    assert IsRect(g);
    PaddedWindowIsNeighbourhood(g, 0, 0, 3, 3);
    SingleSampleNeighbourhood();
    FlattenSingleSample();
    SortSingleSample();
  }

  lemma SingleSampleNeighbourhood()
    ensures IsRect([[7]])
    ensures Neighbourhood([[7]], 0, 0, 3, 3) == [[0, 0, 0], [0, 7, 0], [0, 0, 0]]
  {
    var g := [[7]];
    assert IsRect(g);
    var n := Neighbourhood(g, 0, 0, 3, 3);
    forall a, b | 0 <= a < 3 && 0 <= b < 3 ensures n[a][b] == if a == 1 && b == 1 then 7 else 0 {
      assert n[a][b] == ZeroAt(g, a - 1, b - 1);
    }
    assert n[0] == [0, 0, 0] && n[1] == [0, 7, 0] && n[2] == [0, 0, 0];
  }

  lemma FlattenSingleSample()
    ensures Flatten([[0, 0, 0], [0, 7, 0], [0, 0, 0]]) == [0, 0, 0, 0, 7, 0, 0, 0, 0]
  {
  }

  lemma SortSingleSample()
    ensures Sort([0, 0, 0, 0, 7, 0, 0, 0, 0]) == [0, 0, 0, 0, 0, 0, 0, 0, 7]
  {
    assert [0, 0, 0, 0, 7, 0, 0, 0, 0] == Zeros(4) + [7] + Zeros(4);
    SortZerosAroundSeven(4, 4);
    assert Zeros(8) + [7] == [0, 0, 0, 0, 0, 0, 0, 0, 7];
  }

  lemma {:induction false} SortZeros(n: nat)
    ensures Sort(Zeros(n)) == Zeros(n)
  {
    if n > 0 {
      assert Zeros(n)[1..] == Zeros(n - 1);
      SortZeros(n - 1);
      assert Zeros(n) == [0] + Zeros(n - 1);
    }
  }

  lemma {:induction false} InsertAfterZeros(x: int, n: nat)
    requires x > 0
    ensures Insert(x, Zeros(n)) == Zeros(n) + [x]
  {
    if n > 0 {
      assert Zeros(n)[1..] == Zeros(n - 1);
      InsertAfterZeros(x, n - 1);
      assert Zeros(n) + [x] == [0] + (Zeros(n - 1) + [x]);
    }
  }

  /** Sorting m zeros, a 7 and n zeros moves the 7 last. */
  lemma {:induction false} SortZerosAroundSeven(m: nat, n: nat)
    ensures Sort(Zeros(m) + [7] + Zeros(n)) == Zeros(m + n) + [7]
  {
    var s := Zeros(m) + [7] + Zeros(n);
    if m == 0 {
      assert s == [7] + Zeros(n) && s[1..] == Zeros(n);
      SortZeros(n);
      InsertAfterZeros(7, n);
    } else {
      assert s[1..] == Zeros(m - 1) + [7] + Zeros(n);
      SortZerosAroundSeven(m - 1, n);
      assert Zeros(m + n) + [7] == [0] + (Zeros(m - 1 + n) + [7]);
    }
  }
}
