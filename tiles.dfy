/**
 * Tiles and their cache keys (Tile.java and LocalTileDataLoader.Marker).
 * A decoded bitmap is opaque: only its byte count and whether it has been
 * recycled are modelled.
 */
module Tiles {
  import opened Geometry

  /** A decoded tile image. `recycle()` only sets `released`. */
  class Bitmap {
    const byteCount: nat
    var released: bool

    constructor (byteCount: nat)
      ensures this.byteCount == byteCount && !released
    {
      this.byteCount := byteCount;
      released := false;
    }
  }

  /** A tile as the loader builds it. Only `isDirty` is written after the
      tile has been filled in; the other fields are fixed at construction. */
  class Tile {
    const row: int
    const col: int
    const zoom: int
    const resolution: real
    const scale: real
    const bounds: Bounds
    const data: Bitmap?
    /** Set once the bitmap has been recycled by the cache. */
    var isDirty: bool

    constructor (row: int, col: int, zoom: int, resolution: real, scale: real,
                 bounds: Bounds, data: Bitmap?)
      ensures this.row == row && this.col == col && this.zoom == zoom
      ensures this.resolution == resolution && this.scale == scale
      ensures this.bounds == bounds && this.data == data && !isDirty
    {
      this.row, this.col, this.zoom := row, col, zoom;
      this.resolution, this.scale, this.bounds := resolution, scale, bounds;
      this.data := data;
      isDirty := false;
    }
  }

  /** The identity of a cached tile: what Marker.equals compares. */
  datatype TileKey = TileKey(row: int, col: int, zoom: int)

  /** A cache key as the loader builds it, stamped with the current time.
      All markers of one cache belong to the same loader, so the
      outer-instance comparison in `equals` always holds and is not kept. */
  datatype Marker = Marker(row: int, col: int, zoom: int, timestamp: int)

  function KeyOf(m: Marker): TileKey
  {
    TileKey(m.row, m.col, m.zoom)
  }

  /** A tile filed under a key carries that key's row, column and zoom. */
  predicate Keyed(k: TileKey, t: Tile)
  {
    t.row == k.row && t.col == k.col && t.zoom == k.zoom
  }

  /** Marker.equals: column, row and zoom; the timestamp is ignored. */
  predicate MarkerEquals(a: Marker, b: Marker)
  {
    a.col == b.col && a.row == b.row && a.zoom == b.zoom
  }

  /** Marker.hashCode with Java's 32-bit wrap-around; `ownerHash` is the
      identity hash of the enclosing loader. */
  function MarkerHash(m: Marker, ownerHash: int): (h: int)
    ensures -TWO_POW_31 <= h < TWO_POW_31
  {
    var r0 := Int32(31 * 1 + ownerHash);
    var r1 := Int32(31 * r0 + m.col);
    var r2 := Int32(31 * r1 + m.row);
    Int32(31 * r2 + m.zoom)
  }

  /** Two markers are equal exactly when they name the same tile, and equal
      markers hash alike whatever their timestamps. */
  lemma MarkerEqualityIsTileIdentity(a: Marker, b: Marker, ownerHash: int)
    ensures MarkerEquals(a, b) <==> KeyOf(a) == KeyOf(b)
    ensures MarkerEquals(a, b) ==> MarkerHash(a, ownerHash) == MarkerHash(b, ownerHash)
    ensures MarkerEquals(a, a.(timestamp := b.timestamp))
  {
  }

  /** Marker.compareTo as written: 1 when this stamp is later, otherwise -1. */
  function CompareToAsWritten(a: Marker, b: Marker): (r: int)
    ensures r != 0
    ensures r > 0 <==> a.timestamp > b.timestamp
  {
    if a.timestamp > b.timestamp then 1 else -1
  }

  /** As written, a marker compares below itself and two markers with the
      same stamp each compare below the other, against Comparable's rule
      sgn(a.compareTo(b)) == -sgn(b.compareTo(a)). */
  lemma CompareToAsWrittenNotAntisymmetric(a: Marker, b: Marker)
    requires a.timestamp == b.timestamp
    ensures CompareToAsWritten(a, b) == CompareToAsWritten(b, a) == -1
    ensures CompareToAsWritten(a, a) == -1
  {
  }

  /** compareTo on timestamps with 0 for equal stamps. */
  function CompareTo(a: Marker, b: Marker): (r: int)
    ensures r == 0 <==> a.timestamp == b.timestamp
    ensures r > 0 <==> a.timestamp > b.timestamp
    ensures -1 <= r <= 1
  {
    if a.timestamp > b.timestamp then 1 else if a.timestamp < b.timestamp then -1 else 0
  }

  /** The corrected comparison obeys Comparable's antisymmetry and
      transitivity rules. */
  lemma CompareToIsTotalPreorder(a: Marker, b: Marker, c: Marker)
    ensures CompareTo(a, b) == -CompareTo(b, a)
    ensures CompareTo(a, b) >= 0 && CompareTo(b, c) >= 0 ==> CompareTo(a, c) >= 0
    ensures CompareTo(a, a) == 0
  {
  }
}
