/**
 * LocalTileDataLoader: tiles are looked up in the LRU cache by
 * (row, column, zoom); on a miss the tile file is decoded, a Tile is built
 * from the projection and put into the cache only if the bitmap decoded.
 *
 * Decoding (BitmapFactory.decodeFile on the tile's path) is a fixed oracle
 * `disk` from (row, col, zoom) to its outcome, CoordinatorTranslation.scale
 * is a function parameter `scaleOf`, and the clock reading that stamps each
 * cache key is the parameter `now`.
 */
module Loader {
  import opened Geometry
  import opened Projection
  import opened Tiles
  import opened Cache

  /** What decoding a tile file gives: nothing for a missing or unreadable
      file, otherwise a bitmap of some byte count. */
  datatype Decoded = Undecodable | Decodes(byteCount: nat)

  class LocalTileDataLoader {
    const info: MapInfo
    /** `new CoordinatorTranslation((int) mMapInfo.mTileWidth)`. */
    const translation: Translation
    const disk: (int, int, int) -> Decoded
    const scaleOf: int -> real
    /** mCache: an LruCache of 10 MiB of bitmap bytes. */
    const cache: TileCache

    ghost predicate Valid()
      reads this, cache, cache.Repr
    {
      && cache.Valid()
      && cache.maxSize == CACHE_CAPACITY
      && info.tileWidth > 0
      && translation == WithTileSize(info.tileWidth)
    }

    constructor (info: MapInfo, disk: (int, int, int) -> Decoded, scaleOf: int -> real)
      requires info.tileWidth > 0
      ensures Valid() && fresh(cache) && fresh(cache.Repr)
      ensures this.info == info && this.disk == disk && this.scaleOf == scaleOf
      ensures cache.values == map[] && cache.order == []
    {
      this.info := info;
      translation := WithTileSize(info.tileWidth);
      this.disk := disk;
      this.scaleOf := scaleOf;
      cache := new TileCache(CACHE_CAPACITY);
    }

    /** unLoad: evict every cached tile, recycling each bitmap. */
    method UnLoad()
      requires Valid()
      modifies cache, cache.Entries()
      ensures Valid() && cache.Repr == old(cache.Repr)
      ensures cache.values == map[] && cache.order == []
      ensures forall k :: k in old(cache.values) ==>
                old(cache.values)[k].isDirty && old(cache.values)[k].data.released
    {
      cache.EvictAll();
    }

    /** getTile(row, col, zoom). A cached tile is returned as it is and
        becomes the most recently used. Otherwise a tile is built (its bounds
        are translateTileBounds(row, col, zoom), the row given as the x
        index) and, when its bitmap decodes, put into the cache and returned;
        when it does not, nothing is cached and the result is null. Entries
        the put evicts are recycled and marked dirty. A tile
        whose bitmap alone exceeds the capacity is evicted by the put that
        inserts it, so it comes back already recycled. */
    method GetTile(row: int, col: int, zoom: int, now: int) returns (t: Tile?)
      requires Valid()
      modifies cache, cache.Entries()
      ensures Valid() && fresh(cache.Repr - old(cache.Repr))
      ensures var k := TileKey(row, col, zoom);
              k in old(cache.values) ==>
                && t == old(cache.values)[k]
                && cache.values == old(cache.values)
                && cache.order == Remove(old(cache.order), k) + [k]
      ensures var k := TileKey(row, col, zoom);
              k !in old(cache.values) && disk(row, col, zoom).Undecodable? ==>
                t == null && cache.values == old(cache.values) && cache.order == old(cache.order)
      ensures var k := TileKey(row, col, zoom);
              k !in old(cache.values) && disk(row, col, zoom).Decodes? ==>
                && t != null && fresh(t) && fresh(t.data)
                && t.resolution == Resolution(translation, zoom) && t.scale == scaleOf(zoom)
                && t.bounds == TileBounds(translation, row, col, zoom)
                && t.data.byteCount == disk(row, col, zoom).byteCount
                && Admitted(old(cache.order), old(cache.values), k, t)
      ensures t != null ==> Keyed(TileKey(row, col, zoom), t) && t.data != null
      ensures forall x :: x in old(cache.values) && x !in cache.values ==>
                old(cache.values)[x].isDirty && old(cache.values)[x].data.released
      ensures t != null && TileKey(row, col, zoom) in cache.values ==>
                cache.values[TileKey(row, col, zoom)] == t && !t.isDirty && !t.data.released
    {
      var key := Marker(row, col, zoom, now);
      t := cache.Get(key);
      if t != null {
        IndexedOwned(cache.order, cache.values, cache.size, cache.owner, KeyOf(key));
      } else {
        t := Load(key);
      }
    }

    /** The miss path of getTile: build the tile, decode its bitmap and
        cache the tile when the bitmap decoded. */
    method Load(key: Marker) returns (t: Tile?)
      requires Valid() && KeyOf(key) !in cache.values
      modifies cache, cache.Entries()
      ensures Valid() && fresh(cache.Repr - old(cache.Repr))
      ensures disk(key.row, key.col, key.zoom).Undecodable? ==>
                t == null && cache.values == old(cache.values) && cache.order == old(cache.order)
      ensures var k := KeyOf(key);
              disk(key.row, key.col, key.zoom).Decodes? ==>
                && t != null && fresh(t) && fresh(t.data) && Keyed(k, t)
                && t.resolution == Resolution(translation, key.zoom) && t.scale == scaleOf(key.zoom)
                && t.bounds == TileBounds(translation, key.row, key.col, key.zoom)
                && t.data.byteCount == disk(key.row, key.col, key.zoom).byteCount
                && Admitted(old(cache.order), old(cache.values), k, t)
      ensures forall x :: x in old(cache.values) && x !in cache.values ==>
                old(cache.values)[x].isDirty && old(cache.values)[x].data.released
    {
      var decoded := disk(key.row, key.col, key.zoom);
      if decoded.Decodes? {
        var data := new Bitmap(decoded.byteCount);
        t := new Tile(key.row, key.col, key.zoom, Resolution(translation, key.zoom), scaleOf(key.zoom),
                      TileBounds(translation, key.row, key.col, key.zoom), data);
        Admit(key, t);
      } else {
        t := null;
      }
    }

    /** The outcome of putting the fresh tile `t` under the new key `k` into
        a cache holding `order0`/`values0`. */
    ghost predicate Admitted(order0: seq<TileKey>, values0: map<TileKey, Tile>, k: TileKey, t: Tile)
      reads this, cache, t, t.data
    {
      var m := values0[k := t];
      && t.data != null
      && cache.order == Trimmed(order0 + [k], m, CACHE_CAPACITY)
      && (forall x :: x in cache.values ==> x in m && cache.values[x] == m[x])
      && (SizeOf(t) <= CACHE_CAPACITY <==> k in cache.values)
      && (SizeOf(t) > CACHE_CAPACITY ==> t.isDirty && t.data.released)
    }

    /** mCache.put of a freshly loaded tile under a key not yet cached. */
    method Admit(key: Marker, t: Tile)
      requires Valid() && KeyOf(key) !in cache.values
      requires Keyed(KeyOf(key), t) && t.data != null && !t.isDirty && !t.data.released
      requires forall x :: x in cache.values ==> cache.values[x].data != t.data
      modifies cache, cache.Entries(), t, t.data
      ensures Valid() && cache.Repr == old(cache.Repr) + {t, t.data}
      ensures Admitted(old(cache.order), old(cache.values), KeyOf(key), t)
      ensures forall x :: x in old(cache.values) && x !in cache.values ==>
                old(cache.values)[x].isDirty && old(cache.values)[x].data.released
    {
      var k := KeyOf(key);
      IndexedElems(cache.order, cache.values, cache.size, cache.owner);
      RemoveSpec(cache.order, k);
      var previous := cache.Put(key, t);
      PutOutcome(old(cache.order), old(cache.values)[k := t], k, cache.order, cache.values, cache.size, cache.owner);
    }
  }

  /** After a put and trim, the new entry survives exactly when its own size
      fits the capacity. */
  lemma PutOutcome(order0: seq<TileKey>, m: map<TileKey, Tile>, k: TileKey,
                   order: seq<TileKey>, values: map<TileKey, Tile>, size: int, owner: map<Bitmap, TileKey>)
    requires Indexed(order, values, size, owner) && size <= CACHE_CAPACITY
    requires k in m && order == Trimmed(order0 + [k], m, CACHE_CAPACITY)
    requires forall x :: x in values ==> x in m && values[x] == m[x]
    ensures SizeOf(m[k]) <= CACHE_CAPACITY <==> k in values
  {
    IndexedElems(order, values, size, owner);
    if SizeOf(m[k]) <= CACHE_CAPACITY {
      TrimmedKeepsLast(order0, k, m, CACHE_CAPACITY);
      ElemsHasIndex(order, |order| - 1);
    } else if k in values {
      SumSizesCovers(order, values, k);
    }
  }
}
