/**
 * Single-channel images as rectangular grids, and the zero padding that
 * every windowed filter of Filters.py applies first (np.pad with mode
 * "constant" and constant_values=0).
 */
module Padding {

  /** Number of columns; an image without rows has none. */
  function Width<T>(g: seq<seq<T>>): nat {
    if |g| == 0 then 0 else |g[0]|
  }

  /** Every row has the same length: a 2-D array. */
  predicate IsRect<T>(g: seq<seq<T>>) {
    forall r :: 0 <= r < |g| ==> |g[r]| == Width(g)
  }

  /** Every row has exactly `w` columns. */
  predicate RowsOf<T>(g: seq<seq<T>>, w: nat) {
    forall r :: 0 <= r < |g| ==> |g[r]| == w
  }

  /** The contents of a 2-D output array, as a value. */
  function Grid<T>(a: array2<T>): (g: seq<seq<T>>)
    reads a
    ensures |g| == a.Length0 && RowsOf(g, a.Length1)
    ensures forall i, j :: 0 <= i < a.Length0 && 0 <= j < a.Length1 ==> g[i][j] == a[i, j]
  {
    seq(a.Length0, i requires 0 <= i < a.Length0 reads a =>
      seq(a.Length1, j requires 0 <= j < a.Length1 reads a => a[i, j]))
  }

  /** The sample at (r, c), reading every position outside the image as 0. */
  function ZeroAt(g: seq<seq<int>>, r: int, c: int): int
    requires IsRect(g)
  {
    if 0 <= r < |g| && 0 <= c < Width(g) then g[r][c] else 0
  }

  function Zeros(n: nat): (z: seq<int>)
    ensures |z| == n && forall k :: 0 <= k < n ==> z[k] == 0
  {
    seq(n, _ => 0)
  }

  /** np.pad(g, ((ph, ph), (pw, pw)), constant_values=0): zero rows above and below, zero columns left and right. */
  function Pad(g: seq<seq<int>>, ph: nat, pw: nat): (p: seq<seq<int>>)
    requires IsRect(g)
    ensures |p| == |g| + 2 * ph && RowsOf(p, Width(g) + 2 * pw)
  {
    var w := Width(g) + 2 * pw;
    var border := seq(ph, _ => Zeros(w));
    var middle := seq(|g|, r requires 0 <= r < |g| => Zeros(pw) + g[r] + Zeros(pw));
    assert RowsOf(middle, w) by {
      forall r | 0 <= r < |g| ensures |middle[r]| == w {
        assert |g[r]| == Width(g);
        assert middle[r] == Zeros(pw) + g[r] + Zeros(pw);
      }
    }
    border + middle + border
  }

  /**
   * The padded image holds the image shifted by (ph, pw) and zeros
   * everywhere else.
   */
  lemma PadAt(g: seq<seq<int>>, ph: nat, pw: nat, r: int, c: int)
    requires IsRect(g)
    requires 0 <= r < |g| + 2 * ph && 0 <= c < Width(g) + 2 * pw
    ensures Pad(g, ph, pw)[r][c] == ZeroAt(g, r - ph, c - pw)
  {
    var w := Width(g) + 2 * pw;
    var border := seq(ph, _ => Zeros(w));
    var middle := seq(|g|, r requires 0 <= r < |g| => Zeros(pw) + g[r] + Zeros(pw));
    assert Pad(g, ph, pw) == border + middle + border;
    if r < ph {
      assert Pad(g, ph, pw)[r] == border[r];
    } else if r < ph + |g| {
      assert Pad(g, ph, pw)[r] == middle[r - ph];
      var row := Zeros(pw) + g[r - ph] + Zeros(pw);
      assert |g[r - ph]| == Width(g);
      if c < pw {
        assert row[c] == 0;
      } else if c < pw + Width(g) {
        assert row[c] == g[r - ph][c - pw];
      } else {
        assert row[c] == Zeros(pw)[c - pw - Width(g)];
      }
    } else {
      assert Pad(g, ph, pw)[r] == border[r - ph - |g|];
    }
  }

  /** The image itself sits inside the padding, unchanged. */
  lemma PadKeepsImage(g: seq<seq<int>>, ph: nat, pw: nat, r: int, c: int)
    requires IsRect(g) && 0 <= r < |g| && 0 <= c < Width(g)
    ensures Pad(g, ph, pw)[r + ph][c + pw] == g[r][c]
  {
    PadAt(g, ph, pw, r + ph, c + pw);
  }

  /** Every cell outside the shifted image is a zero of the padding. */
  lemma PadBorderIsZero(g: seq<seq<int>>, ph: nat, pw: nat, r: int, c: int)
    requires IsRect(g)
    requires 0 <= r < |g| + 2 * ph && 0 <= c < Width(g) + 2 * pw
    requires !(ph <= r < ph + |g| && pw <= c < pw + Width(g))
    ensures Pad(g, ph, pw)[r][c] == 0
  {
    PadAt(g, ph, pw, r, c);
  }

  /** padded[i:i+kh, j:j+kw]: the kh x kw block whose top-left corner is (i, j). */
  function Window(p: seq<seq<int>>, i: nat, j: nat, kh: nat, kw: nat): (w: seq<seq<int>>)
    requires i + kh <= |p| && forall r :: i <= r < i + kh ==> j + kw <= |p[r]|
    ensures |w| == kh && RowsOf(w, kw)
  {
    seq(kh, a requires 0 <= a < kh => p[i + a][j .. j + kw])
  }

  /** The kh x kw neighbourhood of (i, j) in the zero-padded image, for a kernel centred at (kh / 2, kw / 2). */
  function PaddedWindow(g: seq<seq<int>>, i: nat, j: nat, kh: nat, kw: nat): (w: seq<seq<int>>)
    requires IsRect(g) && i < |g| && j < Width(g)
    ensures |w| == kh && RowsOf(w, kw)
  {
    Window(Pad(g, kh / 2, kw / 2), i, j, kh, kw)
  }

  /**
   * Cell (a, b) of the padded window of (i, j) is the image sample at
   * (i + a - kh/2, j + b - kw/2), or 0 outside the image: the kernel is laid
   * over the image in its stored orientation.
   */
  lemma PaddedWindowAt(g: seq<seq<int>>, i: nat, j: nat, kh: nat, kw: nat, a: int, b: int)
    requires IsRect(g) && i < |g| && j < Width(g)
    requires 0 <= a < kh && 0 <= b < kw
    ensures PaddedWindow(g, i, j, kh, kw)[a][b] == ZeroAt(g, i + a - kh / 2, j + b - kw / 2)
  {
    PadAt(g, kh / 2, kw / 2, i + a, j + b);
  }

  /** The kh x kw block of zero-extended image samples around (i, j), read from (i - kh/2, j - kw/2) on. */
  function Neighbourhood(g: seq<seq<int>>, i: int, j: int, kh: nat, kw: nat): (w: seq<seq<int>>)
    requires IsRect(g)
    ensures |w| == kh && RowsOf(w, kw)
  {
    seq(kh, a requires 0 <= a < kh => seq(kw, b requires 0 <= b < kw => ZeroAt(g, i + a - kh / 2, j + b - kw / 2)))
  }

  /** Slicing the padded image is the same as reading the image with zeros outside it. */
  lemma PaddedWindowIsNeighbourhood(g: seq<seq<int>>, i: nat, j: nat, kh: nat, kw: nat)
    requires IsRect(g) && i < |g| && j < Width(g)
    ensures PaddedWindow(g, i, j, kh, kw) == Neighbourhood(g, i, j, kh, kw)
  {
    var w, n := PaddedWindow(g, i, j, kh, kw), Neighbourhood(g, i, j, kh, kw);
    forall a | 0 <= a < kh ensures w[a] == n[a] {
      forall b | 0 <= b < kw ensures w[a][b] == n[a][b] {
        PaddedWindowAt(g, i, j, kh, kw, a, b);
      }
    }
  }

  /** All samples of a block, row after row (the order np.median flattens in). */
  function Flatten(w: seq<seq<int>>): seq<int> {
    if |w| == 0 then [] else w[0] + Flatten(w[1..])
  }

  /** `x` is one of the samples of the block `w`. */
  predicate InBlock(w: seq<seq<int>>, n: nat, x: int) {
    exists a, b :: 0 <= a < |w| && 0 <= b < n && b < |w[a]| && w[a][b] == x
  }

  /** Flattening keeps every sample and adds none. */
  lemma {:induction false} FlattenElements(w: seq<seq<int>>, n: nat)
    requires RowsOf(w, n)
    ensures |Flatten(w)| == |w| * n
    ensures forall k :: 0 <= k < |Flatten(w)| ==> InBlock(w, n, Flatten(w)[k])
  {
    if |w| > 0 {
      FlattenElements(w[1..], n);
      var s := Flatten(w);
      assert s == w[0] + Flatten(w[1..]);
      assert |s| == n + (|w| - 1) * n == |w| * n;
      forall k | 0 <= k < |s| ensures InBlock(w, n, s[k]) {
        if k < n {
          assert s[k] == w[0][k];
        } else {
          assert InBlock(w[1..], n, Flatten(w[1..])[k - n]);
          var a, b :| 0 <= a < |w[1..]| && 0 <= b < n && b < |w[1..][a]| && w[1..][a][b] == Flatten(w[1..])[k - n];
          assert s[k] == w[a + 1][b];
        }
      }
    }
  }
}
