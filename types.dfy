/** Types shared by the point-wise operations and the filters. */
module ImageTypes {

  /** An 8-bit unsigned sample: the dtype of every image the loader hands to the core. */
  type Byte = x: int | 0 <= x < 256

  datatype Option<+T> = None | Some(value: T)

  /** A value or the error the source raises instead of returning one. */
  datatype Result<+T, +E> = Ok(value: T) | Err(error: E)

  function Min(a: int, b: int): int { if a <= b then a else b }

  function Max(a: int, b: int): int { if a <= b then b else a }

  /** The mathematical clamp to [0, 255]; the property the saturating step promises. */
  function Clamp(x: int): int { Min(255, Max(0, x)) }
}
