/**
 * Point-wise operations and grayscale conversion (ArithmeticalOperations.py).
 *
 * NumPy applies these operations to whole arrays of any rank, so an image is
 * modelled here as a flat row-major buffer of uint8 samples together with its
 * shape. The two decorators of the source become two plain functions:
 * `ClipUint8` (clip to [0, 255], then narrow to uint8) and
 * `PointwiseOperation` (widen to int16, apply the operation, then clip).
 */
module ArithmeticalOperations {
  import opened ImageTypes

  const Int16Min: int := -32768
  const Int16Max: int := 32767

  predicate IsInt16(x: int) { Int16Min <= x <= Int16Max }

  /** A NumPy uint8 array: its shape and its samples in row-major order. */
  datatype U8Array = U8Array(shape: seq<nat>, data: seq<Byte>) {
    predicate Valid() { |data| == Product(shape) }
  }

  function Product(s: seq<nat>): nat {
    if s == [] then 1 else s[0] * Product(s[1..])
  }

  /** Two's-complement reduction into int16: what NumPy int16 arithmetic does on overflow. */
  function Wrap16(x: int): (r: int)
    ensures IsInt16(r)
    ensures (x - r) % 65536 == 0
    ensures IsInt16(x) ==> r == x
  {
    (x + 32768) % 65536 - 32768
  }

  /** A sum just above the int16 range wraps to a negative value. */
  lemma WrapAbove(x: int)
    requires Int16Max < x < 65536
    ensures Wrap16(x) == x - 65536 < 0
  {
    var y := x - 32768;
    assert 0 <= y < 65536 && x + 32768 == 65536 + y;
    assert (x + 32768) % 65536 == y;
  }

  /**
   * apply_clip_uint8 on one sample: np.clip to [0, 255], then astype(uint8),
   * which truncates toward zero.
   */
  function ClipUint8(x: real): (r: Byte)
    ensures x <= 0.0 ==> r == 0
    ensures x >= 255.0 ==> r == 255
    ensures 0.0 <= x <= 255.0 ==> r as real <= x < r as real + 1.0
  {
    var clipped := if x < 0.0 then 0.0 else if x > 255.0 then 255.0 else x;
    clipped.Floor
  }

  /** The clip step on an integer value is exactly the saturating clamp. */
  function ClipInt(x: int): (r: Byte)
    ensures r == Clamp(x)
  {
    ClipUint8(x as real)
  }

  /**
   * pointwise_operation composed with apply_clip_uint8: every uint8 sample is
   * widened to int16 (lossless), `op` computes the int16 result, and the clip
   * step narrows it back.
   */
  function PointwiseOperation(a: U8Array, op: int -> int): (r: U8Array)
    ensures r.shape == a.shape && |r.data| == |a.data|
    ensures forall k :: 0 <= k < |a.data| ==> r.data[k] == Clamp(op(a.data[k]))
  {
    U8Array(a.shape, seq<Byte>(|a.data|, k requires 0 <= k < |a.data| => ClipInt(op(a.data[k]))))
  }

  /** Widening to int16 and clipping back lose nothing: the identity operation gives the image back. */
  lemma PointwiseIdentity(a: U8Array)
    ensures PointwiseOperation(a, v => v) == a
  {
    var r := PointwiseOperation(a, v => v);
    assert r.data == a.data;
  }

  /** image_add: int16 addition (wrapping), then clip. */
  function ImageAdd(a: U8Array, c: int): (r: U8Array)
    requires IsInt16(c)
    ensures r.shape == a.shape && |r.data| == |a.data|
    ensures forall k :: 0 <= k < |a.data| ==>
      r.data[k] == if a.data[k] + c <= Int16Max then Clamp(a.data[k] + c) else 0
  {
    var r := PointwiseOperation(a, v => Wrap16(v + c));
    forall k | 0 <= k < |a.data|
      ensures r.data[k] == if a.data[k] + c <= Int16Max then Clamp(a.data[k] + c) else 0
    {
      assert r.data[k] == ClipInt(Wrap16(a.data[k] + c));
      if a.data[k] + c > Int16Max {
        WrapAbove(a.data[k] + c);
      }
    }
    r
  }

  /** image_subtract: int16 subtraction (wrapping), then clip. */
  function ImageSubtract(a: U8Array, c: int): (r: U8Array)
    requires IsInt16(c)
    ensures r.shape == a.shape && |r.data| == |a.data|
    ensures forall k :: 0 <= k < |a.data| ==>
      r.data[k] == if a.data[k] - c <= Int16Max then Clamp(a.data[k] - c) else 0
  {
    var r := PointwiseOperation(a, v => Wrap16(v - c));
    forall k | 0 <= k < |a.data|
      ensures r.data[k] == if a.data[k] - c <= Int16Max then Clamp(a.data[k] - c) else 0
    {
      assert r.data[k] == ClipInt(Wrap16(a.data[k] - c));
      if a.data[k] - c > Int16Max {
        WrapAbove(a.data[k] - c);
      }
    }
    r
  }

  /**
   * image_multiply with an integer factor: the product is computed in int16,
   * so it wraps when it leaves the int16 range (see ImageMultiplyWraps).
   */
  function ImageMultiply(a: U8Array, c: int): (r: U8Array)
    requires IsInt16(c)
    ensures r.shape == a.shape && |r.data| == |a.data|
    ensures forall k :: 0 <= k < |a.data| ==> r.data[k] == Clamp(Wrap16(a.data[k] * c))
    ensures forall k :: 0 <= k < |a.data| && IsInt16(a.data[k] * c) ==>
      r.data[k] == Clamp(a.data[k] * c)
  {
    PointwiseOperation(a, v => Wrap16(v * c))
  }

  /** Python's floor division `//` on integers; NumPy yields 0 for a zero divisor. */
  function FloorDiv(a: int, b: int): (r: int)
    ensures b > 0 ==> b * r <= a < b * r + b
    ensures b < 0 ==> b * r + b < a <= b * r
    ensures b == 0 ==> r == 0
  {
    if b > 0 then a / b else if b < 0 then (-a) / (-b) else 0
  }

  /** image_divide with an integer divisor: int16 floor division, then clip. */
  function ImageDivide(a: U8Array, d: int): (r: U8Array)
    requires IsInt16(d)
    ensures r.shape == a.shape && |r.data| == |a.data|
    ensures forall k :: 0 <= k < |a.data| ==>
      r.data[k] == if d > 0 then a.data[k] / d else 0
  {
    PointwiseOperation(a, v => FloorDiv(v, d))
  }

  // ---------------------------------------------------------------------------
  // Grayscale conversion
  // ---------------------------------------------------------------------------

  datatype GrayError = InvalidShape | InvalidMethod(name: string)

  const GrayMethods: set<string> := {"mean", "luminosity", "RED", "GREEN", "BLUE"}

  /** Rank 3 with exactly three channels: the only input gray_scale accepts. */
  predicate IsRgb(a: U8Array) {
    |a.shape| == 3 && a.shape[2] == 3
  }

  /** Sample of channel `c` of pixel `p` of an RGB array. */
  function Sample(a: U8Array, p: int, c: int): Byte
    requires 0 <= p && 0 <= c < 3 && 3 * p + c < |a.data|
  {
    a.data[3 * p + c]
  }

  lemma RgbLength(a: U8Array)
    requires a.Valid() && IsRgb(a)
    ensures |a.data| % 3 == 0
  {
    var n := a.shape[0] * a.shape[1];
    assert a.shape[2..] == [3] && a.shape[3..] == [];
    assert Product(a.shape[2..]) == 3;
    assert Product(a.shape) == a.shape[0] * (a.shape[1] * 3);
    assert Product(a.shape) == n * 3;
  }

  /** Channel c of pixel p sits at flat index 3p + c. */
  lemma PixelIndex(n: int, p: int, c: int)
    requires n % 3 == 0 && 0 <= p < n / 3 && 0 <= c < 3
    ensures 3 * p + c < n && (3 * p + c) / 3 == p
  {
    assert n == 3 * (n / 3);
  }

  /**
   * The per-pixel value of each method, after the clip step. The uint8 sum of
   * the mean method wraps modulo 256 before the division by 3.
   */
  function GrayValue(mode: string, r: Byte, g: Byte, b: Byte): (v: Byte)
    requires mode in GrayMethods
    ensures mode == "mean" ==> v == ((r + g + b) % 256) / 3
    ensures mode == "luminosity" ==>
      var y := 0.299 * r as real + 0.587 * g as real + 0.114 * b as real;
      0.0 <= y <= 255.0 && v as real <= y < v as real + 1.0
    ensures mode == "RED" ==> v == r
    ensures mode == "GREEN" ==> v == g
    ensures mode == "BLUE" ==> v == b
  {
    ThirdFloor((r + g + b) % 256);
    if mode == "mean" then ClipUint8(((r + g + b) % 256) as real / 3.0)
    else if mode == "luminosity" then
      ClipUint8(0.299 * r as real + 0.587 * g as real + 0.114 * b as real)
    else if mode == "RED" then ClipUint8(r as real)
    else if mode == "GREEN" then ClipUint8(g as real)
    else ClipUint8(b as real)
  }

  function GrayPixel(a: U8Array, mode: string, p: int): Byte
    requires mode in GrayMethods
    requires 0 <= p && 3 * p + 2 < |a.data|
  {
    GrayValue(mode, Sample(a, p, 0), Sample(a, p, 1), Sample(a, p, 2))
  }

  /**
   * gray_scale: validate the shape, then the method name, then replicate the
   * mode's per-pixel value into all three channels.
   */
  function GrayScale(a: U8Array, mode: string): (r: Result<U8Array, GrayError>)
    requires a.Valid()
    ensures r == Err(InvalidShape) <==> !IsRgb(a)
    ensures r == Err(InvalidMethod(mode)) <==> IsRgb(a) && mode !in GrayMethods
    ensures r.Err? ==> r == Err(InvalidShape) || r == Err(InvalidMethod(mode))
    ensures r.Ok? ==> r.value.shape == a.shape && r.value.Valid()
    ensures r.Ok? ==> forall p :: 0 <= p < |a.data| / 3 ==>
      Sample(r.value, p, 1) == Sample(r.value, p, 0) && Sample(r.value, p, 2) == Sample(r.value, p, 0)
  {
    if !IsRgb(a) then Err(InvalidShape)
    else if mode !in GrayMethods then Err(InvalidMethod(mode))
    else
      RgbLength(a);
      var out := U8Array(a.shape, seq(|a.data|, k requires 0 <= k < |a.data| => GrayPixel(a, mode, k / 3)));
      assert forall p :: 0 <= p < |a.data| / 3 ==>
        Sample(out, p, 1) == Sample(out, p, 0) && Sample(out, p, 2) == Sample(out, p, 0) by {
        forall p | 0 <= p < |a.data| / 3
          ensures Sample(out, p, 1) == Sample(out, p, 0) && Sample(out, p, 2) == Sample(out, p, 0)
        {
          PixelIndex(|a.data|, p, 0);
          PixelIndex(|a.data|, p, 1);
          PixelIndex(|a.data|, p, 2);
        }
      }
      Ok(out)
  }

  // ---------------------------------------------------------------------------
  // Properties of the point-wise operations
  // ---------------------------------------------------------------------------

  /** One sample of image_subtract(image_add(v, c), c) for a non-negative offset. */
  lemma AddThenSubtractSample(a: U8Array, c: int, k: int)
    requires 0 <= c <= Int16Max && 0 <= k < |a.data|
    ensures ImageSubtract(ImageAdd(a, c), c).data[k]
      == if a.data[k] + c <= 255 then a.data[k] else Clamp(255 - c)
    ensures ImageSubtract(ImageAdd(a, c), c).data[k] == a.data[k]
      <==> a.data[k] + c <= 255 || a.data[k] == 0
  {
  }

  /**
   * Adding then subtracting the same offset gives the image back exactly when
   * no sample saturated at 255 (a zero sample survives any offset).
   */
  lemma {:induction false} AddThenSubtract(a: U8Array, c: int)
    requires 0 <= c <= Int16Max
    ensures ImageSubtract(ImageAdd(a, c), c) == a
      <==> forall k :: 0 <= k < |a.data| ==> a.data[k] + c <= 255 || a.data[k] == 0
  {
    var r := ImageSubtract(ImageAdd(a, c), c);
    forall k | 0 <= k < |a.data| {
      AddThenSubtractSample(a, c, k);
    }
    if forall k :: 0 <= k < |a.data| ==> a.data[k] + c <= 255 || a.data[k] == 0 {
      assert r.data == a.data;
    }
  }

  /** One sample of image_add(image_subtract(v, c), c) for a non-negative offset. */
  lemma SubtractThenAddSample(a: U8Array, c: int, k: int)
    requires 0 <= c <= Int16Max && 0 <= k < |a.data|
    ensures ImageAdd(ImageSubtract(a, c), c).data[k]
      == if a.data[k] >= c then a.data[k] else Clamp(c)
    ensures ImageAdd(ImageSubtract(a, c), c).data[k] == a.data[k]
      <==> a.data[k] >= c || a.data[k] == 255
  {
  }

  /**
   * Subtracting then adding the same offset gives the image back exactly when
   * no sample saturated at 0 (a 255 sample comes back from any offset).
   */
  lemma {:induction false} SubtractThenAdd(a: U8Array, c: int)
    requires 0 <= c <= Int16Max
    ensures ImageAdd(ImageSubtract(a, c), c) == a
      <==> forall k :: 0 <= k < |a.data| ==> a.data[k] >= c || a.data[k] == 255
  {
    var r := ImageAdd(ImageSubtract(a, c), c);
    forall k | 0 <= k < |a.data| {
      SubtractThenAddSample(a, c, k);
    }
    if forall k :: 0 <= k < |a.data| ==> a.data[k] >= c || a.data[k] == 255 {
      assert r.data == a.data;
    }
  }

  /** With a factor small enough that 255 * |c| fits in int16, image_multiply saturates. */
  lemma ImageMultiplyNoWrap(a: U8Array, c: int)
    requires 255 * c <= Int16Max && -255 * c <= Int16Max
    ensures forall k :: 0 <= k < |a.data| ==> ImageMultiply(a, c).data[k] == Clamp(a.data[k] * c)
  {
    forall k | 0 <= k < |a.data| ensures IsInt16(a.data[k] * c) {
      ProductBound(a.data[k], c);
    }
  }

  lemma ProductBound(v: int, c: int)
    requires 0 <= v <= 255
    ensures c >= 0 ==> 0 <= v * c <= 255 * c
    ensures c < 0 ==> 255 * c <= v * c <= 0
  {
  }

  /**
   * Finding, the code as written: a factor above 128 overflows the int16
   * intermediate, so the brightest sample multiplied by 129 comes out black.
   */
  lemma ImageMultiplyWraps()
    ensures ImageMultiply(U8Array([1], [255]), 129).data == [0]
    ensures Clamp(255 * 129) == 255
  {
    var a := U8Array([1], [255]);
    assert ImageMultiply(a, 129).data[0] == ClipInt(Wrap16(255 * 129));
    assert Wrap16(255 * 129) == 32895 - 65536;
  }

  /**
   * Finding, the evidently intended operation: the product computed without
   * an overflowing intermediate, then clipped.
   */
  function SaturatingMultiply(a: U8Array, c: int): (r: U8Array)
    ensures r.shape == a.shape && |r.data| == |a.data|
    ensures forall k :: 0 <= k < |a.data| ==> r.data[k] == Clamp(a.data[k] * c)
  {
    PointwiseOperation(a, v => v * c)
  }

  /**
   * The intended promise of a saturating multiply: a factor of at least one
   * never darkens a sample. ImageMultiplyWraps shows the code breaks it.
   */
  lemma SaturatingMultiplyBrightens(a: U8Array, c: int, k: int)
    requires c >= 1 && 0 <= k < |a.data|
    ensures SaturatingMultiply(a, c).data[k] >= a.data[k]
  {
    var v := a.data[k];
    assert v * c >= v * 1;
  }

  /** The code as written breaks that promise for the factor 129. */
  lemma ImageMultiplyDarkens()
    ensures ImageMultiply(U8Array([1], [255]), 129).data[0] < U8Array([1], [255]).data[0]
  {
    ImageMultiplyWraps();
  }

  /** image_divide never raises: a zero or negative divisor blacks the image out. */
  lemma ImageDivideNonPositive(a: U8Array, d: int)
    requires IsInt16(d) && d <= 0
    ensures forall k :: 0 <= k < |a.data| ==> ImageDivide(a, d).data[k] == 0
  {
  }

  /** A positive divisor never brightens a sample and dividing by one is the identity. */
  lemma ImageDividePositive(a: U8Array, d: int)
    requires IsInt16(d) && d > 0
    ensures forall k :: 0 <= k < |a.data| ==> ImageDivide(a, d).data[k] <= a.data[k]
    ensures d == 1 ==> ImageDivide(a, d) == a
  {
    forall k | 0 <= k < |a.data| ensures a.data[k] / d <= a.data[k] {
    }
    if d == 1 {
      assert ImageDivide(a, d).data == a.data;
    }
  }

  // ---------------------------------------------------------------------------
  // Properties of gray_scale
  // ---------------------------------------------------------------------------

  /** The RED, GREEN and BLUE methods copy one input channel into all three. */
  lemma GrayScaleSelectsChannel(a: U8Array, mode: string, p: int, c: int)
    requires a.Valid() && IsRgb(a) && mode in {"RED", "GREEN", "BLUE"}
    requires 0 <= p < |a.data| / 3 && 0 <= c < 3
    ensures GrayScale(a, mode).Ok?
    ensures var src := if mode == "RED" then 0 else if mode == "GREEN" then 1 else 2;
      Sample(GrayScale(a, mode).value, p, c) == Sample(a, p, src)
  {
    RgbLength(a);
    PixelIndex(|a.data|, p, c);
  }

  /** Floor of a channel sum divided by three, as the clip step narrows it. */
  lemma ThirdFloor(x: int)
    requires 0 <= x <= 765
    ensures ClipUint8(x as real / 3.0) == x / 3
  {
    var q := x / 3;
    assert x == 3 * q + x % 3;
    assert q as real <= x as real / 3.0 < q as real + 1.0;
  }

  /**
   * The mean method sums the channels in uint8, so the sum wraps modulo 256
   * before the (floor) division by three.
   */
  lemma GrayScaleMean(a: U8Array, p: int, c: int)
    requires a.Valid() && IsRgb(a)
    requires 0 <= p < |a.data| / 3 && 0 <= c < 3
    ensures GrayScale(a, "mean").Ok?
    ensures Sample(GrayScale(a, "mean").value, p, c)
      == ((Sample(a, p, 0) + Sample(a, p, 1) + Sample(a, p, 2)) % 256) / 3
  {
    RgbLength(a);
    PixelIndex(|a.data|, p, c);
    ThirdFloor((Sample(a, p, 0) + Sample(a, p, 1) + Sample(a, p, 2)) % 256);
  }

  /** The wrap is observable: three channels of 128 average to 42, not 128. */
  lemma GrayScaleMeanWraps()
    ensures GrayScale(U8Array([1, 1, 3], [128, 128, 128]), "mean")
      == Ok(U8Array([1, 1, 3], [42, 42, 42]))
  {
    var a := U8Array([1, 1, 3], [128, 128, 128]);
    assert a.Valid();
    forall c | 0 <= c < 3 {
      GrayScaleMean(a, 0, c);
    }
    assert GrayScale(a, "mean").value.data == [42, 42, 42];
  }

  /**
   * The mean the "mean" method evidently intends: the channels summed without
   * wrap-around, divided by three and truncated. It lies between the smallest
   * and the largest channel, so a gray pixel stays the same gray.
   */
  function MeanOfChannels(r: Byte, g: Byte, b: Byte): (m: Byte)
    ensures Min(r, Min(g, b)) <= m <= Max(r, Max(g, b))
    ensures r == g == b ==> m == r
  {
    var sum := r + g + b;
    ThirdFloor(sum);
    ThirdBetween(r, g, b);
    ClipUint8(sum as real / 3.0)
  }

  lemma ThirdBetween(r: Byte, g: Byte, b: Byte)
    ensures Min(r, Min(g, b)) <= (r + g + b) / 3 <= Max(r, Max(g, b))
    ensures r == g == b ==> (r + g + b) / 3 == r
  {
    var lo, hi := Min(r, Min(g, b)), Max(r, Max(g, b));
    assert 3 * lo <= r + g + b <= 3 * hi;
  }

  /** The wrapped mean of the source and the intended mean part on a bright gray pixel. */
  lemma MeanDiffersFromIntended()
    ensures GrayValue("mean", 128, 128, 128) == 42
    ensures MeanOfChannels(128, 128, 128) == 128
  {
    ThirdFloor(128);
  }
}
