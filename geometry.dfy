/**
 * Value types shared by the map engine (Bounds, MapInfo) and the Java
 * numeric conversions the engine relies on, written out over unbounded
 * integers and exact reals.
 */
module Geometry {

  /** A Java reference that may be null. */
  datatype Option<T> = None | Some(value: T)

  /** An axis-aligned rectangle in projected meters (Bounds.java).
      Nothing orders left/right or top/bottom. */
  datatype Bounds = Bounds(left: real, top: real, right: real, bottom: real)

  function Width(b: Bounds): real { b.right - b.left }

  function Height(b: Bounds): real { b.bottom - b.top }

  /** Per-zoom parameters of the tile pyramid. The render path reads
      `maxRow`/`maxCol` (the last row and column index of the level). */
  datatype ZoomInfo = ZoomInfo(resolution: real, scale: real, maxRow: int, maxCol: int)

  /** Static map configuration (MapInfo.java). Tile dimensions are kept as
      the integers the render path casts them to. */
  datatype MapInfo = MapInfo(
    minScale: real,
    maxScale: real,
    fullExtent: Bounds,
    initialExtent: Bounds,
    tileWidth: int,
    tileHeight: int,
    tileDpi: real,
    levels: seq<ZoomInfo>)

  /** Java's `(int) x` for a double: truncation toward zero (saturation at
      the 32-bit range is not modelled). */
  function Trunc(x: real): (n: int)
    ensures x >= 0.0 ==> n as real <= x < n as real + 1.0
    ensures x < 0.0 ==> n as real - 1.0 < x <= n as real
  {
    if x >= 0.0 then x.Floor else -((-x).Floor)
  }

  /** `(int) Math.ceil(p / (float) d)` for a positive divisor, computed
      exactly. */
  function CeilDiv(p: int, d: int): (q: int)
    requires d > 0
    ensures (q - 1) * d < p <= q * d
  {
    -((-p) / d)
  }

  /** The only integer satisfying the defining bounds of CeilDiv is CeilDiv. */
  lemma CeilDivUnique(p: int, d: int, q: int)
    requires d > 0
    requires (q - 1) * d < p <= q * d
    ensures q == CeilDiv(p, d)
  {
    var c := CeilDiv(p, d);
    if q < c {
      MulMonotone(q, c - 1, d);
    } else if q > c {
      MulMonotone(c, q - 1, d);
    }
  }

  /** CeilDiv is monotone in its numerator. */
  lemma CeilDivMonotone(p: int, p': int, d: int)
    requires d > 0 && p <= p'
    ensures CeilDiv(p, d) <= CeilDiv(p', d)
  {
    var q, q' := CeilDiv(p, d), CeilDiv(p', d);
    if q' < q {
      MulMonotone(q', q - 1, d);
    }
  }

  lemma MulMonotone(a: int, b: int, d: int)
    requires a <= b && d > 0
    ensures a * d <= b * d
  {
  }

  const TWO_POW_32: int := 0x1_0000_0000
  const TWO_POW_31: int := 0x8000_0000

  /** Reduction of an integer to a Java `int` (two's complement wrap-around). */
  function Int32(x: int): (r: int)
    ensures -TWO_POW_31 <= r < TWO_POW_31
    ensures (r - x) % TWO_POW_32 == 0
  {
    var u := x % TWO_POW_32;
    if u < TWO_POW_31 then u else u - TWO_POW_32
  }

  /** Java's `a ^ b` on two `int`s: bitwise exclusive or of their 32-bit
      two's complement representations. */
  function XorInt32(a: int, b: int): (r: int)
    ensures -TWO_POW_31 <= r < TWO_POW_31
  {
    var x := ((a % TWO_POW_32) as bv32) ^ ((b % TWO_POW_32) as bv32);
    Int32(x as int)
  }
}
