/**
 * Spherical Mercator (EPSG:900913 / EPSG:3857) tile-pyramid arithmetic of
 * CoordinatorTranslation, the GlobalMercator class of GDAL2Tiles ported to
 * Java. A translation is fixed by its tile size and base resolution, both
 * set once by a constructor; every operation is a pure function of them.
 */
module Projection {
  import opened Geometry

  /** Half the equator's length in meters, pi * 6378137: the Mercator plane
      spans [-ORIGIN_SHIFT, ORIGIN_SHIFT] on both axes. pi is not a real
      literal, so the constant is the double the source computes and the
      base resolution is derived from it. */
  const ORIGIN_SHIFT: real := 20037508.342789244

  const DEFAULT_TILE_SIZE: int := 256

  /** A configured translation. Both constructors set the resolution of
      zoom level 0 to 2 * pi * 6378137 / tileSize, so the tile size fixes it
      (BaseResolution). */
  datatype Translation = Translation(tileSize: int)

  predicate WellFormed(t: Translation)
  {
    t.tileSize > 0
  }

  /** Meters per pixel at zoom 0: the world (2 * ORIGIN_SHIFT meters) is
      exactly one tile wide. */
  function BaseResolution(t: Translation): (r: real)
    requires WellFormed(t)
    ensures r > 0.0 && r * (t.tileSize as real) == 2.0 * ORIGIN_SHIFT
  {
    2.0 * ORIGIN_SHIFT / (t.tileSize as real)
  }

  /** The no-argument constructor: 256-pixel tiles. */
  function DefaultTranslation(): (t: Translation)
    ensures WellFormed(t) && t.tileSize == DEFAULT_TILE_SIZE
    ensures 156543.0339280 < BaseResolution(t) < 156543.0339281
  {
    Translation(DEFAULT_TILE_SIZE)
  }

  /** The constructor taking a tile size. */
  function WithTileSize(tileSize: int): (t: Translation)
    requires tileSize > 0
    ensures WellFormed(t) && t.tileSize == tileSize
  {
    Translation(tileSize)
  }

  function Pow2(n: nat): (p: nat)
    ensures p >= 1
  {
    if n == 0 then 1 else 2 * Pow2(n - 1)
  }

  /** Meters per pixel at a zoom level: the base resolution halved once per
      level (`mResoultion / 2^zoom` read as a power). This is the corrected
      definition the rest of the model uses; ResolutionAsWritten is the
      source's bitwise-xor divisor. */
  function Resolution(t: Translation, zoom: int): (r: real)
    requires WellFormed(t)
    ensures r > 0.0
  {
    if zoom >= 0 then BaseResolution(t) / (Pow2(zoom) as real)
    else BaseResolution(t) * (Pow2(-zoom) as real)
  }

  /** Each zoom level halves the resolution. */
  lemma ResolutionHalves(t: Translation, zoom: int)
    requires WellFormed(t)
    ensures Resolution(t, zoom + 1) == Resolution(t, zoom) / 2.0
  {
    var b := BaseResolution(t);
    if zoom >= 0 {
      var p := Pow2(zoom) as real;
      assert Pow2(zoom + 1) as real == 2.0 * p;
      HalveQuotient(b, p);
    } else if zoom == -1 {
      assert Resolution(t, zoom) == b * 2.0;
    } else {
      var q := Pow2(-zoom - 1) as real;
      assert Pow2(-zoom) as real == 2.0 * q;
      assert Resolution(t, zoom) == b * (2.0 * q);
    }
  }

  lemma HalveQuotient(b: real, p: real)
    requires p > 0.0
    ensures b / (2.0 * p) == (b / p) / 2.0
  {
  }

  /** A tile edge in meters: tileSize pixels at a zoom level. */
  lemma {:induction false} TileSpanTimesTiles(t: Translation, zoom: nat)
    requires WellFormed(t)
    ensures (t.tileSize as real) * Resolution(t, zoom) * (Pow2(zoom) as real) == 2.0 * ORIGIN_SHIFT
  {
    var p := Pow2(zoom) as real;
    var ts := t.tileSize as real;
    assert Resolution(t, zoom) * p == BaseResolution(t);
    calc {
      ts * Resolution(t, zoom) * p;
      ts * (Resolution(t, zoom) * p);
      ts * BaseResolution(t);
      2.0 * ORIGIN_SHIFT;
    }
  }

  /** A point of the Mercator plane or a (fractional) pixel position. */
  datatype Point = Point(x: real, y: real)

  /** A tile index, column (x) first. */
  datatype TileIndex = TileIndex(x: int, y: int)

  /** Pixel coordinates at a zoom level to meters (trasnlatePixelsToMercator):
      the pixel origin is the plane's corner (-ORIGIN_SHIFT, -ORIGIN_SHIFT). */
  function PixelsToMercator(t: Translation, px: int, py: int, zoom: int): (m: Point)
    requires WellFormed(t)
    ensures (m.x + ORIGIN_SHIFT) / Resolution(t, zoom) == px as real
    ensures (m.y + ORIGIN_SHIFT) / Resolution(t, zoom) == py as real
  {
    var res := Resolution(t, zoom);
    Point((px as real) * res - ORIGIN_SHIFT, (py as real) * res - ORIGIN_SHIFT)
  }

  /** Meters to fractional pixel coordinates at a zoom level
      (translateMercatorToPixels). */
  function MercatorToPixels(t: Translation, mx: real, my: real, zoom: int): (p: Point)
    requires WellFormed(t)
    ensures p.x * Resolution(t, zoom) - ORIGIN_SHIFT == mx
    ensures p.y * Resolution(t, zoom) - ORIGIN_SHIFT == my
  {
    var res := Resolution(t, zoom);
    Point((mx + ORIGIN_SHIFT) / res, (my + ORIGIN_SHIFT) / res)
  }

  /** Meters to pixels undoes pixels to meters. */
  lemma PixelsMercatorRoundTrip(t: Translation, px: int, py: int, zoom: int)
    requires WellFormed(t)
    ensures var m := PixelsToMercator(t, px, py, zoom);
            MercatorToPixels(t, m.x, m.y, zoom) == Point(px as real, py as real)
  {
  }

  /** Pixels to meters undoes meters to pixels wherever the pixel position is
      whole. */
  lemma MercatorPixelsRoundTrip(t: Translation, mx: real, my: real, zoom: int, px: int, py: int)
    requires WellFormed(t)
    requires MercatorToPixels(t, mx, my, zoom) == Point(px as real, py as real)
    ensures PixelsToMercator(t, px, py, zoom) == Point(mx, my)
  {
  }

  /** The tile holding a pixel (translatePixelsToTile): ceil(p / tileSize) - 1
      on each axis, so tile k holds pixels k*ts+1 .. (k+1)*ts and pixel 0 lies
      in tile -1. The result is [column, row]. */
  function PixelsToTile(t: Translation, px: int, py: int): (c: TileIndex)
    requires WellFormed(t)
    ensures c.x * t.tileSize < px <= (c.x + 1) * t.tileSize
    ensures c.y * t.tileSize < py <= (c.y + 1) * t.tileSize
  {
    TileIndex(CeilDiv(px, t.tileSize) - 1, CeilDiv(py, t.tileSize) - 1)
  }

  /** A pixel lies in tile k of an axis exactly when k*ts < p <= (k+1)*ts. */
  lemma PixelInTile(t: Translation, px: int, py: int, kx: int, ky: int)
    requires WellFormed(t)
    ensures PixelsToTile(t, px, py) == TileIndex(kx, ky) <==>
            kx * t.tileSize < px <= (kx + 1) * t.tileSize &&
            ky * t.tileSize < py <= (ky + 1) * t.tileSize
  {
    if kx * t.tileSize < px <= (kx + 1) * t.tileSize && ky * t.tileSize < py <= (ky + 1) * t.tileSize {
      CeilDivUnique(px, t.tileSize, kx + 1);
      CeilDivUnique(py, t.tileSize, ky + 1);
    }
  }

  /** Pixel 0 lies in tile -1; pixel 1 in tile 0. */
  lemma PixelZeroInTileMinusOne(t: Translation)
    requires WellFormed(t)
    ensures PixelsToTile(t, 0, 0) == TileIndex(-1, -1)
    ensures PixelsToTile(t, 1, 1) == TileIndex(0, 0)
  {
    PixelInTile(t, 0, 0, -1, -1);
    PixelInTile(t, 1, 1, 0, 0);
  }

  /** The tile index grows with the pixel coordinate, axis by axis. */
  lemma PixelsToTileMonotone(t: Translation, px: int, py: int, px': int, py': int)
    requires WellFormed(t)
    requires px <= px' && py <= py'
    ensures PixelsToTile(t, px, py).x <= PixelsToTile(t, px', py').x
    ensures PixelsToTile(t, px, py).y <= PixelsToTile(t, px', py').y
  {
    CeilDivMonotone(px, px', t.tileSize);
    CeilDivMonotone(py, py', t.tileSize);
  }

  /** The tile holding a point in meters (translateMercatorToTile): the pixel
      position is truncated toward zero before the tile lookup. */
  function MercatorToTile(t: Translation, mx: real, my: real, zoom: int): (c: TileIndex)
    requires WellFormed(t)
    ensures var p := MercatorToPixels(t, mx, my, zoom);
            c.x * t.tileSize < Trunc(p.x) <= (c.x + 1) * t.tileSize &&
            c.y * t.tileSize < Trunc(p.y) <= (c.y + 1) * t.tileSize
  {
    var p := MercatorToPixels(t, mx, my, zoom);
    PixelsToTile(t, Trunc(p.x), Trunc(p.y))
  }

  /** The meter bounds of tile (tx, ty) (translateTileBounds): its pixel
      corners tx*ts and (tx+1)*ts projected back to meters. */
  function TileBounds(t: Translation, tx: int, ty: int, zoom: int): (b: Bounds)
    requires WellFormed(t)
    ensures Width(b) == (t.tileSize as real) * Resolution(t, zoom)
    ensures Height(b) == (t.tileSize as real) * Resolution(t, zoom)
  {
    var lo := PixelsToMercator(t, tx * t.tileSize, ty * t.tileSize, zoom);
    var hi := PixelsToMercator(t, (tx + 1) * t.tileSize, (ty + 1) * t.tileSize, zoom);
    var res := Resolution(t, zoom);
    var ts := t.tileSize as real;
    assert ((tx + 1) * t.tileSize) as real * res == (tx * t.tileSize) as real * res + ts * res;
    assert ((ty + 1) * t.tileSize) as real * res == (ty * t.tileSize) as real * res + ts * res;
    Bounds(lo.x, lo.y, hi.x, hi.y)
  }

  /** Neighbouring tiles share their edges exactly: no gap and no overlap. */
  lemma TileBoundsAdjacent(t: Translation, tx: int, ty: int, zoom: int)
    requires WellFormed(t)
    ensures TileBounds(t, tx, ty, zoom).right == TileBounds(t, tx + 1, ty, zoom).left
    ensures TileBounds(t, tx, ty, zoom).bottom == TileBounds(t, tx, ty + 1, zoom).top
  {
  }

  /** The single tile of zoom 0 is the whole Mercator plane. */
  lemma WorldTileAtZoomZero(t: Translation)
    requires WellFormed(t)
    ensures TileBounds(t, 0, 0, 0) == Bounds(-ORIGIN_SHIFT, -ORIGIN_SHIFT, ORIGIN_SHIFT, ORIGIN_SHIFT)
  {
    assert Resolution(t, 0) == BaseResolution(t);
  }

  /** At zoom z the 2^z x 2^z tiles 0 .. 2^z - 1 cover exactly the plane:
      tile (0, 0) starts at its top-left corner ... */
  lemma TilesCoverWorldFromOrigin(t: Translation, zoom: nat)
    requires WellFormed(t)
    ensures TileBounds(t, 0, 0, zoom).left == -ORIGIN_SHIFT
    ensures TileBounds(t, 0, 0, zoom).top == -ORIGIN_SHIFT
  {
  }

  /** ... and tile (2^z - 1, 2^z - 1) ends at its bottom-right corner. */
  lemma TilesCoverWorldToFarCorner(t: Translation, zoom: nat)
    requires WellFormed(t)
    ensures TileBounds(t, Pow2(zoom) - 1, Pow2(zoom) - 1, zoom).right == ORIGIN_SHIFT
    ensures TileBounds(t, Pow2(zoom) - 1, Pow2(zoom) - 1, zoom).bottom == ORIGIN_SHIFT
  {
    var n := Pow2(zoom);
    WorldSpan(t, zoom);
    TileBoundsFarEdges(t, n - 1, n - 1, zoom);
  }

  /** 2^z tiles of tileSize pixels span the plane's width. */
  lemma WorldSpan(t: Translation, zoom: nat)
    requires WellFormed(t)
    ensures (((Pow2(zoom) - 1) + 1) * t.tileSize) as real * Resolution(t, zoom) == 2.0 * ORIGIN_SHIFT
  {
    TileSpanTimesTiles(t, zoom);
    ProductReorder(Pow2(zoom), t.tileSize, Resolution(t, zoom));
  }

  lemma ProductReorder(n: int, ts: int, res: real)
    ensures (((n - 1) + 1) * ts) as real * res == (ts as real) * res * (n as real)
  {
    assert ((n - 1) + 1) * ts == n * ts;
    assert (n * ts) as real == (n as real) * (ts as real);
  }

  /** The right and bottom edges of a tile come from the pixel corner
      ((tx + 1) * tileSize, (ty + 1) * tileSize). */
  lemma TileBoundsFarEdges(t: Translation, tx: int, ty: int, zoom: int)
    requires WellFormed(t)
    ensures TileBounds(t, tx, ty, zoom).right == ((tx + 1) * t.tileSize) as real * Resolution(t, zoom) - ORIGIN_SHIFT
    ensures TileBounds(t, tx, ty, zoom).bottom == ((ty + 1) * t.tileSize) as real * Resolution(t, zoom) - ORIGIN_SHIFT
  {
  }

  // Concrete facts the unit tests of the translation assert.

  /** `resolution(0)` prints as 156543.0339280 and each level halves it
      (within the seven printed decimals). */
  lemma DefaultResolutionValues()
    ensures var t := DefaultTranslation();
            156543.03392795 <= Resolution(t, 0) < 156543.03392805 &&
            78271.51696395 <= Resolution(t, 1) < 78271.51696405 &&
            39135.75848195 <= Resolution(t, 2) < 39135.75848205 &&
            19567.87924095 <= Resolution(t, 3) < 19567.87924105 &&
            9783.93962045 <= Resolution(t, 4) < 9783.93962055
  {
    var t := DefaultTranslation();
    assert Pow2(1) == 2 && Pow2(2) == 4 && Pow2(3) == 8 && Pow2(4) == 16;
  }

  /** Pixel (128, 1) at zoom 0 is meter (0, -ORIGIN_SHIFT + resolution(0)). */
  lemma DefaultPixelsToMercatorSample()
    ensures var t := DefaultTranslation();
            PixelsToMercator(t, 128, 1, 0) == Point(0.0, -ORIGIN_SHIFT + Resolution(t, 0))
  {
  }

  /** Meters -ORIGIN_SHIFT + 3 * resolution(0) are pixel 3 on both axes. */
  lemma DefaultMercatorToPixelsSample()
    ensures var t := DefaultTranslation();
            var m := -ORIGIN_SHIFT + Resolution(t, 0) * 3.0;
            MercatorToPixels(t, m, m, 0) == Point(3.0, 3.0) &&
            Trunc(MercatorToPixels(t, m, m, 0).x) == 3
  {
    var t := DefaultTranslation();
    PixelsMercatorRoundTrip(t, 3, 3, 0);
  }

  // The resolution divisor as written: Java's `2 ^ zoom` is a bitwise xor.

  /** The result of a double division: finite, or +Infinity for a positive
      numerator over zero. */
  datatype JavaDouble = Finite(value: real) | PositiveInfinity

  /** `mResoultion / (2 ^ zoom)` exactly as written. */
  function ResolutionAsWritten(t: Translation, zoom: int): (r: JavaDouble)
    requires WellFormed(t)
    ensures r.PositiveInfinity? <==> XorInt32(2, zoom) == 0
  {
    var d := XorInt32(2, zoom);
    if d == 0 then PositiveInfinity else Finite(BaseResolution(t) / (d as real))
  }

  /** The xor divisors for zoom 0..4 are 2, 3, 0, 1, 6 instead of 1, 2, 4, 8, 16. */
  lemma XorDivisors()
    ensures XorInt32(2, 0) == 2 && XorInt32(2, 1) == 3 && XorInt32(2, 2) == 0
    ensures XorInt32(2, 3) == 1 && XorInt32(2, 4) == 6
  {
  }

  /** As written, zoom 0 is already halved, zoom 1 is a third, and zoom 2
      divides by zero, so neither the printed 156543.0339280 at zoom 0 nor
      the halving per level holds. */
  lemma ResolutionAsWrittenDefect(t: Translation)
    requires WellFormed(t)
    ensures ResolutionAsWritten(t, 0) == Finite(BaseResolution(t) / 2.0)
    ensures ResolutionAsWritten(t, 0).value != Resolution(t, 0)
    ensures ResolutionAsWritten(t, 1) == Finite(BaseResolution(t) / 3.0)
    ensures ResolutionAsWritten(t, 1).value != ResolutionAsWritten(t, 0).value / 2.0
    ensures ResolutionAsWritten(t, 2) == PositiveInfinity
  {
    XorDivisors();
  }
}
