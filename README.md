# EasyGIS tile engine in Dafny

This project models the core of EasyGIS, a slippy-map engine for Android,
and proves properties of the model. It covers the following parts:

- **Projection** (`CoordinatorTranslation`): the Spherical Mercator arithmetic
  of the tile pyramid. It converts between meters, pixels and tile indices,
  computes the meter bounds of a tile and the resolution per zoom level.
- **Tiles and cache keys** (`Tile`, `LocalTileDataLoader.Marker`): a tile's
  identity is its row, column and zoom, and a marker's timestamp plays no
  part in equality or hashing.
- **Tile cache**: the loader's `LruCache`, with a 10 MiB budget of bitmap
  bytes. Its `entryRemoved` override recycles a displaced bitmap and marks
  the tile dirty. The library class itself is implemented here from its
  documented contract: a key-to-tile map, an access order, a running size,
  and eviction from the least recently used end.
- **Loader** (`LocalTileDataLoader.getTile` / `unLoad`): returns a cached
  tile, or builds a tile, decodes its file and caches it.
- **Tile layer** (`TileLayer`):
  - the update runnable turns the viewport into a list of tiles placed at
    pixel offsets;
  - the config runnable sizes the off-screen buffer;
  - the render worker composites the list;
  - `startRender` / `stopRender` drive the worker's state.
- **Map** (`EMap` and the anonymous `EMap` of `MapView`): holds the viewport
  (bounds, zoom, resolution and scale) and forwards each change to the
  layers. This covers zoom in and out, translate with clamping to the full
  extent, scale updates, `initMapInfo` and the viewport center.

Files:

| file | module | contents |
|---|---|---|
| `geometry.dfy` | `Geometry` | bounds, map configuration, Java `(int)` casts, `Math.ceil` division, 32-bit wrap-around and xor |
| `projection.dfy` | `Projection` | `CoordinatorTranslation` as pure functions |
| `tiles.dfy` | `Tiles` | `Bitmap`, `Tile` (classes), `Marker` equality, hash and comparison |
| `cache.dfy` | `Cache` | LRU order, eviction (`Trimmed`), class `TileCache` |
| `loader.dfy` | `Loader` | class `LocalTileDataLoader` |
| `tile_layer.dfy` | `TileLayers` | the tile window, the cells the loops visit, the list they build, class `TileLayer` |
| `map_model.dfy` | `MapModel` | zoom, translate and center functions, class `EMap` |

Some modelling choices:

- Numbers are exact: meters and resolutions are `real`, pixel and tile
  indices are `int`.
- Java's `(int)` cast of a double is truncation toward zero (`Trunc`).
- `(int) Math.ceil(p / (float) size)` is the exact integer ceiling
  (`CeilDiv`).
- Hash arithmetic wraps at 32 bits (`Int32`).
- Bitmap decoding of a tile file is a fixed function `disk` from
  (row, col, zoom) to "does not decode" or "decodes to n bytes".
- `CoordinatorTranslation.scale(zoom)` is a function parameter `scaleOf`.
- The clock reading that stamps each cache key is a parameter `now`.
- Threads are not modelled:
  - each runnable and each pass of the worker loop is one sequential
    method writing the fields the Java code writes;
  - posted update runnables are counted (`pendingUpdates`);
  - the message handler's existence is a flag (`handlerAlive`).

Where the intended behaviour of the engine and the code differ, the model
follows the code, with one exception: the resolution per zoom level. The
source divides by `2 ^ zoom`, a bitwise xor (see "## Findings"). That
written divisor is modelled as `ResolutionAsWritten`. Every conversion, tile
bound, window and map state uses the corrected `Resolution` (base / 2^zoom)
instead, and "## Left out" lists each member this affects. Otherwise:

- **No lower clip.** The update runnable clips the tile range only from
  above (`j <= maxCol && i <= maxRow`). Rows and columns below 0 are still
  requested.
- **Left edge on a tile boundary.** A viewport whose left edge lies exactly
  on a tile boundary starts one whole tile off-screen: at column k-1 with
  offset -tileWidth (`LeftEdgeOnTileBoundary`). It does not start at
  column k with offset 0.
- **Edge adjustment never fires.** With exact arithmetic and the layer's
  own tile width, the unadjusted first offset always lies in
  [-tileWidth, 0] (`FirstTileOffset`, `ViewWindowStart`). The same holds
  for rows when tiles are square.
- **Tiles are fetched under their own names.** The update runnable calls
  `translateMetersToTile` and `translateMetersToPixels`, which
  `CoordinatorTranslation` does not declare. The model uses
  `translateMercatorToTile` and `translateMercatorToPixels`, which take the
  meter values unconverted (reals).
- **Oversized tiles.** A tile whose bitmap alone exceeds the cache budget is
  evicted by the very `put` that inserts it. `getTile` then returns it
  already recycled and dirty.
- **Later fetches may evict earlier ones.** Within one update, later fetches
  may evict tiles already placed in the list. The list still holds them.

## Model

| member | source | states |
|---|---|---|
| Geometry.Trunc | src/com/easygis/map/layer/TileLayer.java:227-228 | `(int)` of a double truncates toward zero: the result is within one of x and never farther from 0 than x |
| Geometry.CeilDiv | src/com/easygis/util/CoordinatorTranslation.java:158-159 | `ceil(p / d)` for d > 0 is the q with (q-1)*d < p <= q*d |
| Geometry.CeilDivUnique | src/com/easygis/util/CoordinatorTranslation.java:158-159 | exactly one integer meets the ceiling's defining bounds |
| Geometry.Int32 | src/com/easygis/map/service/LocalTileDataLoader.java:143-151 | the hash arithmetic's wrap-around: the result is in the int range and congruent to x mod 2^32 |
| Geometry.XorInt32 | src/com/easygis/util/CoordinatorTranslation.java:212-214 | Java's `^` on ints yields an int |
| Projection.DefaultTranslation | src/com/easygis/util/CoordinatorTranslation.java:74-77 | the no-argument constructor: 256-pixel tiles, one tile spans the world at zoom 0, base resolution 156543.0339280... |
| Projection.WithTileSize | src/com/easygis/util/CoordinatorTranslation.java:79-82 | the tile-size constructor keeps the given tile size |
| Projection.BaseResolution | src/com/easygis/util/CoordinatorTranslation.java:62-82 | the zoom-0 resolution is positive and one tile of tileSize pixels spans the world's 2 * ORIGIN_SHIFT meters |
| Projection.Resolution | src/com/easygis/util/CoordinatorTranslation.java:212-214 | the corrected resolution (base / 2^zoom) is positive |
| Projection.ResolutionHalves | src/com/easygis/util/CoordinatorTranslation.java:212-214 | resolution(z+1) == resolution(z) / 2 for every z |
| Projection.TileSpanTimesTiles | src/com/easygis/util/CoordinatorTranslation.java:79-82 | at zoom z, 2^z tiles of tileSize pixels span exactly the world's width |
| Projection.PixelsToMercator | src/com/easygis/util/CoordinatorTranslation.java:129-135 | the meter point maps back to the pixel: (m + ORIGIN_SHIFT) / resolution == p |
| Projection.MercatorToPixels | src/com/easygis/util/CoordinatorTranslation.java:142-147 | the pixel point maps back to the meters: p * resolution - ORIGIN_SHIFT == m |
| Projection.PixelsMercatorRoundTrip | src/com/easygis/util/CoordinatorTranslation.java:129-147 | pixels to meters to pixels is the identity |
| Projection.MercatorPixelsRoundTrip | src/com/easygis/util/CoordinatorTranslation.java:129-147 | meters whose pixels are integral come back from those pixels unchanged |
| Projection.PixelsToTile | src/com/easygis/util/CoordinatorTranslation.java:156-161 | `ceil(px / size) - 1` is the tile c with c*size < px <= (c+1)*size on each axis |
| Projection.PixelInTile | src/com/easygis/util/CoordinatorTranslation.java:156-161 | a pixel lies in tile k exactly when k*size < px <= (k+1)*size, in both directions |
| Projection.PixelZeroInTileMinusOne | src/com/easygis/util/CoordinatorTranslation.java:156-161 | pixel 0 belongs to tile -1 and pixel 1 to tile 0 (the ceiling-then-decrement edge) |
| Projection.PixelsToTileMonotone | src/com/easygis/util/CoordinatorTranslation.java:156-161 | a larger pixel never gives a smaller tile index |
| Projection.MercatorToTile | src/com/easygis/util/CoordinatorTranslation.java:170-173 | the tile of a meter point holds its truncated pixel position |
| Projection.TileBounds | src/com/easygis/util/CoordinatorTranslation.java:183-189 | a tile's meter bounds are tileSize * resolution wide and high |
| Projection.TileBoundsAdjacent | src/com/easygis/util/CoordinatorTranslation.java:183-189 | neighbouring tiles share their edges exactly: no gap, no overlap |
| Projection.TileBoundsFarEdges | src/com/easygis/util/CoordinatorTranslation.java:186-188 | right and bottom edges come from pixel corner ((tx+1)*size, (ty+1)*size) |
| Projection.WorldTileAtZoomZero | src/com/easygis/util/CoordinatorTranslation.java:183-189 | tile (0, 0) at zoom 0 is the whole plane [-ORIGIN_SHIFT, ORIGIN_SHIFT]^2 |
| Projection.TilesCoverWorldFromOrigin | src/com/easygis/util/CoordinatorTranslation.java:183-189 | at every zoom tile (0, 0) starts at the plane's top-left corner |
| Projection.TilesCoverWorldToFarCorner | src/com/easygis/util/CoordinatorTranslation.java:183-189 | at zoom z tile (2^z-1, 2^z-1) ends at the plane's far corner |
| Projection.WorldSpan | src/com/easygis/util/CoordinatorTranslation.java:183-189 | 2^z tiles of the tile size span 2 * ORIGIN_SHIFT meters at zoom z |
| Projection.DefaultResolutionValues | test/com/testcase/CoordinatorTranslationTest.java:108-122 | resolution(0..4) of 256-pixel tiles agree with the five values the test prints to seven decimals |
| Projection.DefaultPixelsToMercatorSample | test/com/testcase/CoordinatorTranslationTest.java:39-45 | pixel (128, 1) at zoom 0 is meter (0, -ORIGIN_SHIFT + resolution(0)) |
| Projection.DefaultMercatorToPixelsSample | test/com/testcase/CoordinatorTranslationTest.java:47-54 | meters -ORIGIN_SHIFT + 3*resolution(0) are pixel 3, and cast to 3 |
| Projection.ResolutionAsWritten | src/com/easygis/util/CoordinatorTranslation.java:212-214 | the written divisor is `2 ^ zoom` as xor; the result is infinite exactly when that xor is 0 |
| Projection.XorDivisors | src/com/easygis/util/CoordinatorTranslation.java:213 | for zoom 0..4 the written divisors are 2, 3, 0, 1, 6 |
| Projection.ResolutionAsWrittenDefect | src/com/easygis/util/CoordinatorTranslation.java:212-214 | as written, zoom 0 is halved, zoom 1 is not half of zoom 0, zoom 2 divides by zero |
| Tiles.Bitmap.constructor | src/com/easygis/map/service/LocalTileDataLoader.java:80-82 | a decoded bitmap has its byte count and is not recycled |
| Tiles.Tile.constructor | src/com/easygis/map/service/LocalTileDataLoader.java:49-59 | a new tile holds the given row, column, zoom, resolution, scale, bounds and bitmap and is not dirty |
| Tiles.MarkerHash | src/com/easygis/map/service/LocalTileDataLoader.java:143-151 | the hash is a 32-bit int |
| Tiles.MarkerEquals | src/com/easygis/map/service/LocalTileDataLoader.java:154-171 | equals compares column, row and zoom and ignores the timestamp; MarkerEqualityIsTileIdentity states it is tile identity |
| Tiles.MarkerEqualityIsTileIdentity | src/com/easygis/map/service/LocalTileDataLoader.java:143-171 | markers are equal iff row, column and zoom agree; equal markers hash alike; the timestamp is ignored |
| Tiles.CompareToAsWritten | src/com/easygis/map/service/LocalTileDataLoader.java:177-180 | compareTo as written is never 0 and is positive iff this stamp is later |
| Tiles.CompareToAsWrittenNotAntisymmetric | src/com/easygis/map/service/LocalTileDataLoader.java:177-180 | for equal stamps both orders give -1, and a marker compares below itself |
| Tiles.CompareTo | src/com/easygis/map/service/LocalTileDataLoader.java:177-180 | the corrected comparison is 0 iff the stamps are equal and positive iff this stamp is later |
| Tiles.CompareToIsTotalPreorder | src/com/easygis/map/service/LocalTileDataLoader.java:177-180 | the corrected comparison is antisymmetric, transitive and reflexive |
| Cache.RemoveSpec | src/com/easygis/map/service/LocalTileDataLoader.java:86 | dropping a key from the access order removes exactly that key |
| Cache.SizeOf | src/com/easygis/map/service/LocalTileDataLoader.java:106-113 | sizeOf is the bitmap's byte count (no contract of its own; the totals and eviction are stated through SumSizes and Trimmed) |
| Cache.Trimmed | src/com/easygis/map/service/LocalTileDataLoader.java:115-118 | trimToSize's eviction order; what it keeps is stated by TrimmedIsFittingSuffix, TrimmedMinimal, TrimmedKeepsLast and TrimmedNegativeEmpties |
| Cache.SumSizesAgree | src/com/easygis/map/service/LocalTileDataLoader.java:106-113 | the total size depends only on the entries of the listed keys |
| Cache.SumSizesCovers | src/com/easygis/map/service/LocalTileDataLoader.java:106-113 | one entry's size is at most the total |
| Cache.TrimmedIsFittingSuffix | src/com/easygis/map/service/LocalTileDataLoader.java:115-118 | eviction keeps the most recently used end of the order, and what is kept fits the budget (or nothing is left) |
| Cache.TrimmedMinimal | src/com/easygis/map/service/LocalTileDataLoader.java:115-118 | eviction stops as soon as the total fits: one entry fewer evicted would exceed the budget |
| Cache.TrimmedKeepsLast | src/com/easygis/map/service/LocalTileDataLoader.java:86 | the entry just put survives eviction whenever its own size fits the budget |
| Cache.TrimmedNegativeEmpties | src/com/easygis/map/service/LocalTileDataLoader.java:40-42 | trimming to -1 (evictAll) evicts every entry |
| Cache.ListedElems | src/com/easygis/map/service/LocalTileDataLoader.java:86 | the access order lists exactly the cached keys and the running size is their total |
| Cache.TileCache.constructor | src/com/easygis/map/service/LocalTileDataLoader.java:86 | a new cache is empty with the given budget |
| Cache.TileCache.EntryRemoved | src/com/easygis/map/service/LocalTileDataLoader.java:94-104 | a removed tile different from its replacement is recycled and marked dirty; re-putting the same object does neither |
| Cache.TileCache.Get | src/com/easygis/map/service/LocalTileDataLoader.java:47 | a hit returns the cached tile and moves its key to the most recently used end; a miss returns null and changes nothing |
| Cache.TileCache.RemoveEldest | src/com/easygis/map/service/LocalTileDataLoader.java:94-99 | the least recently used entry leaves the cache recycled and dirty |
| Cache.TileCache.TrimToSize | src/com/easygis/map/service/LocalTileDataLoader.java:115-118 | the new order is `Trimmed` of the old; survivors are unchanged; every evicted tile is recycled and dirty; the total fits or the cache is empty |
| Cache.TileCache.EvictStep | src/com/easygis/map/service/LocalTileDataLoader.java:94-118 | one iteration of trimToSize: one entry fewer, the trim of the order unchanged, every entry that has left recycled and dirty |
| Cache.TileCache.Insert | src/com/easygis/map/service/LocalTileDataLoader.java:61 | the map update of put: the key holds the new tile and is most recently used; the previous value is returned; nothing is recycled yet |
| Cache.TileCache.Store | src/com/easygis/map/service/LocalTileDataLoader.java:61 | put before trimming: the map update, then a displaced different tile is recycled and no entry shares it or its bitmap |
| Cache.TileCache.Displace | src/com/easygis/map/service/LocalTileDataLoader.java:94-104 | entryRemoved for the tile put displaced: a different tile is recycled and dirty, and every cached entry stays live |
| Cache.TileCache.Put | src/com/easygis/map/service/LocalTileDataLoader.java:86-118 | put stores the tile as most recently used, recycles a displaced different tile, and trims to the budget; the size bound and liveness of cached tiles are kept |
| Cache.TileCache.EvictAll | src/com/easygis/map/service/LocalTileDataLoader.java:40-42 | the cache ends empty and every tile it held is recycled and dirty |
| Loader.LocalTileDataLoader.constructor | src/com/easygis/map/service/LocalTileDataLoader.java:21-25 | the loader starts with an empty 10 MiB cache and a translation of its tile width |
| Loader.LocalTileDataLoader.UnLoad | src/com/easygis/map/service/LocalTileDataLoader.java:40-42 | the cache ends empty and every tile it held is dirty and recycled |
| Loader.LocalTileDataLoader.GetTile | src/com/easygis/map/service/LocalTileDataLoader.java:45-69 | hit: the cached tile, cache map unchanged, key most recently used. Miss on an undecodable file: null, nothing cached. Miss that decodes: a fresh tile with this row/col/zoom, resolution(zoom), scale(zoom), tileBounds(row, col, zoom), put into the cache. In every case, entries that leave the cache are recycled and dirty |
| Loader.LocalTileDataLoader.Load | src/com/easygis/map/service/LocalTileDataLoader.java:48-64 | the miss path: null for an undecodable file, else the new tile with its fields and its admission into the cache; entries the put evicts are recycled and dirty |
| Loader.LocalTileDataLoader.Admit | src/com/easygis/map/service/LocalTileDataLoader.java:60-61 | putting a new tile: the order is the trim of the old order plus its key; it stays cached iff it fits alone; evicted tiles are recycled |
| Loader.PutOutcome | src/com/easygis/map/service/LocalTileDataLoader.java:106-118 | after put and trim, the new entry is cached iff its own size fits the budget |
| TileLayers.AdjustEdgeSpec | src/com/easygis/map/layer/TileLayer.java:233-247 | the edge adjustment moves the first index by at most one and preserves the pixel position; offsets in [-size, 0] are untouched |
| TileLayers.AdjustEdge | src/com/easygis/map/layer/TileLayer.java:233-247 | the edge adjustment as written (strict `>` tests); its meaning is AdjustEdgeSpec |
| TileLayers.ViewWindow | src/com/easygis/map/layer/TileLayer.java:212-256 | the window of the update runnable as a function of bounds and zoom; its meaning is ViewWindowStart, FirstTileOffset and LeftEdgeOnTileBoundary |
| TileLayers.FirstTileOffset | src/com/easygis/map/layer/TileLayer.java:216-239 | with tiles of the translation's size, the first offset is in [-size, 0], no adjustment happens, and the tile starts within one pixel of the corner |
| TileLayers.ViewWindowStart | src/com/easygis/map/layer/TileLayer.java:212-247 | the window's first column is the left edge's tile with offset in [-tileWidth, 0]; the same for rows when tiles are square |
| TileLayers.LeftEdgeOnTileBoundary | src/com/easygis/map/layer/TileLayer.java:216-239 | a left edge exactly on pixel k*tileWidth gives first column k-1 at offset -tileWidth |
| TileLayers.RowCellsSpec | src/com/easygis/map/layer/TileLayer.java:258-273 | one row's requests are exactly the columns within maxCol, placed at offsetX + (j - startCol)*tileWidth, in column order |
| TileLayers.GridCellsSpec | src/com/easygis/map/layer/TileLayer.java:257-274 | the first rows' requests are exactly the cells within maxRow/maxCol, in row-major order |
| TileLayers.VisibleCellsSpec | src/com/easygis/map/layer/TileLayer.java:255-274 | the nested loops request exactly the in-range cells of the window, each at its offset, in row-major order |
| TileLayers.RowCells | src/com/easygis/map/layer/TileLayer.java:258-273 | the inner loop's requests for one row; stated by RowCellsSpec |
| TileLayers.GridCells | src/com/easygis/map/layer/TileLayer.java:257-274 | the requests of the first rows; stated by GridCellsSpec |
| TileLayers.VisibleCells | src/com/easygis/map/layer/TileLayer.java:257-274 | every request of the nested loops, in order; stated by VisibleCellsSpec |
| TileLayers.Collect | src/com/easygis/map/layer/TileLayer.java:264-271 | the list has at most one entry per request |
| TileLayers.CollectFrom | src/com/easygis/map/layer/TileLayer.java:264-271 | every list entry is a returned tile at its own request's offsets |
| TileLayers.CollectComplete | src/com/easygis/map/layer/TileLayer.java:264-271 | every returned tile with a bitmap is in the list |
| TileLayers.CollectRowMajor | src/com/easygis/map/layer/TileLayer.java:257-274 | requests in row-major order give a list in row-major order of its tiles |
| TileLayers.CollectSpec | src/com/easygis/map/layer/TileLayer.java:257-274 | the list keeps the cells' order, places each tile at its own cell's offset and contains every returned tile |
| TileLayers.UpdateListSpec | src/com/easygis/map/layer/TileLayer.java:254-274 | the update's list: every entry is a requested tile of the window at its offset, the list is row-major, every returned tile is in it |
| TileLayers.RequestsSnoc | src/com/easygis/map/layer/TileLayer.java:263-271 | one more request extends the list by its tile when it came back |
| TileLayers.CollectConcat | src/com/easygis/map/layer/TileLayer.java:257-274 | the list of two stretches of requests is the two lists joined |
| TileLayers.RequestsConcat | src/com/easygis/map/layer/TileLayer.java:257-274 | row after row: requests and lists concatenate |
| TileLayers.Raster.constructor | src/com/easygis/map/layer/TileLayer.java:302-303 | a new buffer has the requested size, nothing drawn, not recycled |
| TileLayers.TileLayer.constructor | src/com/easygis/map/layer/TileLayer.java:54-59 | a new layer has the map's configuration, a translation of its tile width, a live handler, state NONE and no bounds |
| TileLayers.TileLayer.UpdateMapInfo | src/com/easygis/map/layer/TileLayer.java:61-66 | the layer takes the new configuration and translation and restarts rendering (state NONE) |
| TileLayers.TileLayer.StartRender | src/com/easygis/map/layer/TileLayer.java:134-149 | the handler exists and the worker state is NONE |
| TileLayers.TileLayer.StopRender | src/com/easygis/map/layer/TileLayer.java:151-158 | the handler is gone, posted runnables are dropped, the worker state is DIED |
| TileLayers.TileLayer.UpdateBounds | src/com/easygis/map/layer/TileLayer.java:105-110 | the bounds are recorded and one update is posted iff the handler exists |
| TileLayers.TileLayer.UpdateBoundsAt | src/com/easygis/map/layer/TileLayer.java:113-115 | the same, the zoom being ignored |
| TileLayers.TileLayer.Scale | src/com/easygis/map/layer/TileLayer.java:120-122 | the drawing scale is multiplied by the factor |
| TileLayers.TileLayer.Fetch | src/com/easygis/map/layer/TileLayer.java:264 | getTile as the loops use it: the tile of (i, j) with a bitmap, or null only for an undecodable file |
| TileLayers.TileLayer.Visit | src/com/easygis/map/layer/TileLayer.java:258-273 | one inner iteration extends the requests by column j and the list accordingly |
| TileLayers.TileLayer.RequestRow | src/com/easygis/map/layer/TileLayer.java:258-273 | the inner loop requests exactly row i's cells and builds their list |
| TileLayers.TileLayer.RequestTiles | src/com/easygis/map/layer/TileLayer.java:254-274 | the nested loops request exactly the window's visible cells and return Collect of their answers |
| TileLayers.TileLayer.VisibleWindow | src/com/easygis/map/layer/TileLayer.java:212-256 | the runnable's window computation equals the window function of the bounds and zoom |
| TileLayers.TileLayer.RunUpdate | src/com/easygis/map/layer/TileLayer.java:208-289 | the current list becomes the tiles of the viewport's window, and the state becomes RENDER; the configuration and bounds are unchanged |
| TileLayers.TileLayer.RunConfig | src/com/easygis/map/layer/TileLayer.java:291-325 | the buffer ends exactly width x height (created, kept, reconfigured or replaced with the old one recycled); pending runnables dropped; state RENDER |
| TileLayers.TileLayer.WorkerPass | src/com/easygis/map/layer/TileLayer.java:169-206 | exits iff DIED; draws the current list onto the buffer and sets DONE iff RENDER with a buffer; otherwise changes nothing |
| MapModel.Halved | src/com/easygis/map/MapView.java:418-422 | halving the edges halves width and height and is undone by doubling |
| MapModel.Doubled | src/com/easygis/map/MapView.java:431-435 | doubling the edges doubles width and height |
| MapModel.HalvedDoubled | src/com/easygis/map/MapView.java:416-438 | halving and doubling undo each other |
| MapModel.ZoomInKeepsPixelSize | src/com/easygis/map/MapView.java:416-425 | zooming in keeps the viewport's width and height in pixels |
| MapModel.Displacement | src/com/easygis/map/MapView.java:512-526 | the translate offset in meters: pixels times the resolution, meters as given, zero for lat/lng |
| MapModel.ShiftX | src/com/easygis/map/MapView.java:529-542 | the horizontal step of translate; stated by TranslatedSpec |
| MapModel.ShiftY | src/com/easygis/map/MapView.java:544-559 | the vertical step of translate; stated by TranslatedSpec |
| MapModel.Translated | src/com/easygis/map/MapView.java:529-559 | the bounds translate ends with; stated by TranslatedSpec, TranslatedStaysWithin and TranslatedWithinIsShift |
| MapModel.TranslatedSpec | src/com/easygis/map/MapView.java:529-559 | translate preserves width and height; each axis moves freely or lands exactly on the extent edge it would pass (`>`/`<` horizontally, `>=`/`<=` vertically) |
| MapModel.TranslatedStaysWithin | src/com/easygis/map/MapView.java:529-559 | a viewport inside the full extent stays inside it after any translate |
| MapModel.TranslatedWithinIsShift | src/com/easygis/map/MapView.java:544-559 | when the plain shift stays within the extent (edges touching included), translate is that shift |
| MapModel.Midpoint | src/com/easygis/map/EMap.java:61-63 | the corrected center is equidistant from opposite edges and inside well-ordered bounds |
| MapModel.CenterAsWritten | src/com/easygis/map/EMap.java:61-63 | getCenter as written; CenterAsWrittenDefect states where it differs from the midpoint |
| MapModel.CenterAsWrittenDefect | src/com/easygis/map/EMap.java:61-63 | the written center equals the midpoint iff left and top are 0; for (100, 100, 200, 200) it is (50, 50), outside |
| MapModel.EMap.constructor | src/com/easygis/map/EMap.java:13-19 | a new map has no configuration and no bounds, zoom 0, resolution and scale 0 |
| MapModel.EMap.InitMapInfo | src/com/easygis/map/EMap.java:26-36 | a null loader throws NullPointerException; otherwise the loaded value is stored, even null, and the result says whether it was non-null |
| MapModel.EMap.NotifyLayers | src/com/easygis/map/MapView.java:471-474 | every layer, in order, records the bounds and posts one update if its handler exists; nothing else changes |
| MapModel.EMap.UpdateBoundsAt | src/com/easygis/map/MapView.java:464-475 | zoom = level, resolution = resolution(level), bounds = b, and every layer is told |
| MapModel.EMap.UpdateBounds | src/com/easygis/map/MapView.java:477-480 | the same at the current zoom |
| MapModel.EMap.ZoomIn | src/com/easygis/map/MapView.java:415-426 | below the last level: bounds halved, zoom + 1, layers told; at the last level nothing changes; the zoom stays in range |
| MapModel.EMap.ZoomOut | src/com/easygis/map/MapView.java:428-439 | above level 0: bounds doubled, zoom - 1, layers told; at 0 nothing changes; the zoom stays in range |
| MapModel.EMap.RescaleLayers | src/com/easygis/map/MapView.java:458-461 | every layer's drawing scale is multiplied by the factor; nothing else changes |
| MapModel.EMap.UpdateScaleAtMeters | src/com/easygis/map/MapView.java:454-462 | resolution and scale are divided by the factor, layers rescaled; the point plays no part |
| MapModel.EMap.UpdateScale | src/com/easygis/map/MapView.java:441-446 | the same as updateScaleAtMeters |
| MapModel.EMap.Translate | src/com/easygis/map/MapView.java:508-564 | the offset in meters (pixels times resolution, meters, or 0 for lat/lng) moves the bounds with clamping; width and height are kept; the resolution is reset to that of the zoom; layers told |

`getBounds` and `getScale` (src/com/easygis/map/EMap.java:43-54) read the
`bounds` and `scale` fields of `MapModel.EMap` and change nothing.

## Left out

- Threads are left out. The message queue, the worker thread, `wait` and
  `notify`, and the 100 ms poll are not modelled, so neither blocking nor
  interleavings are. Each runnable and each worker pass is one sequential
  method.
- `WorkerPass` covers one pass. While it waits for a buffer it changes
  nothing; it does not loop.
- `onLayout`, `onDraw`, `onAttachedToWindow` and `onDetachedFromWindow`
  (view callbacks) are not modelled. Neither is pixel drawing: compositing
  appends the list to the buffer's `drawn` history.
- Restarting a quit `HandlerThread` is not modelled. `StartRender` makes the
  handler live again.
- Android graphics and I/O are not modelled: bitmap creation,
  `reconfigure`, the pixel format, `BitmapFactory.decodeFile` and the tile
  path string. A bitmap has only a byte count and a recycled flag, and
  decoding is the `disk` function.
- `sizeOf` is the bitmap's byte count. The choice between
  `getAllocationByteCount` and `getByteCount` by SDK version is not
  modelled, nor is the inverted SDK test in the config runnable; that
  runnable takes the branch as the parameter `reconfigureInPlace`.
- The `LruCache` library is replaced by its documented contract:
  hit/miss counters, `create` and thread safety are left out.
- `getTileAsync`, `init`, `load`, `tileLoadedNotification` and
  `centerAtMeters` have no behaviour in the source and are not modelled.
- Lat/lon conversions are not modelled: `translateLatLonToMercator`,
  `translateMercatorToLatLon`, `TileLatLonBounds`, `centerAt` and
  `updateScaleAtLatLng` use log/tan/atan/exp. `Translate` with `LAT_LNG`
  moves by zero, as the source does.
- Gesture and UI code in `MapView` is not modelled: touch handling, fling,
  click runnables, `doDoubleTapZoomIn` (which needs the view size), and
  `addLayer`/`removeLayer`. The map's layers are fixed at construction.
- Aliasing of the Java `Bounds` object is not modelled. The map and its
  layers share one `Bounds` object, and `translate` edits it in place before
  handing a copy on. `Bounds` is a value here, so every holder ends with
  the same edges but the intermediate in-place edit is not visible to the
  layers.
- Floating point is not modelled. The model uses exact reals and integers:
  `px / (float) size` is exact only below 2^24, and saturation of `(int)`
  casts at the int range is ignored. So is the 32-bit overflow of Java's int
  products `startCol * tileWidth`, `indexJ * tileWidth` and `tx * mTileSize`
  (src/com/easygis/map/layer/TileLayer.java:227-228, 259-262 and
  src/com/easygis/util/CoordinatorTranslation.java:184-187). Those overflow only
  for pixel positions of 2^31 and above.
- `Projection.Resolution`: agrees with the test's printed values only to
  within the printed decimals, because pi is taken as the source's double
  constant.
- The corrected resolution replaces the written one. The source's
  `resolution(zoom)` divides by the xor `2 ^ zoom`. That gives base/2 at
  zoom 0, base/3 at zoom 1 and +Infinity at zoom 2
  (`ResolutionAsWrittenDefect`). The members below use `Resolution` =
  base / 2^zoom instead, so at every zoom but 3 their values differ from
  what the source computes:
- PixelsToMercator: meters from pixels use the corrected resolution. At
  zoom 0, pixel x 128 is meter 0 here and -ORIGIN_SHIFT/2 in the source.
- MercatorToPixels: pixels from meters use the corrected resolution.
- MercatorToTile: the pixel position it looks up comes from the corrected
  resolution.
- TileBounds: tile edges use the corrected resolution. At zoom 0, tile
  (0, 0) ends at ORIGIN_SHIFT here and at 0 in the source.
- ViewWindow: the window's tiles and offsets come from the corrected
  pixel positions.
- VisibleWindow: computes ViewWindow, so the same holds.
- RunUpdate: requests the tiles of that corrected window.
- GetTile: a new tile's resolution and bounds are the corrected ones.
- Load: the same as GetTile.
- UpdateBoundsAt: the map's resolution becomes the corrected resolution of
  the level.
- UpdateBounds: the same at the current zoom.
- ZoomIn: the new resolution is the corrected one.
- ZoomOut: the new resolution is the corrected one.
- Translate: the resolution reset after the move is the corrected one.
- Division by zero is excluded:
  - `MapModel.EMap.UpdateScaleAtMeters` and `MapModel.EMap.UpdateScale`
    require a non-zero factor, where Java would divide to an infinity;
  - `Projection.WithTileSize` and the layer and loader constructors require
    a positive tile width.
- `MapModel.EMap.ZoomIn`, `MapModel.EMap.ZoomOut`,
  `MapModel.EMap.Translate` and `MapModel.EMap.UpdateScale` require bounds
  (and, except `UpdateScale`, a loaded configuration). In the
  source, a call without them throws NullPointerException.
- `TileLayers.TileLayer.RunUpdate` requires bounds and a zoom within the
  configured levels. The source would throw NullPointerException or
  ArrayIndexOutOfBoundsException otherwise.
- `TileLayers.TileLayer.RunUpdate` reads the zoom as a parameter (the map's
  `getZoom()`). The window uses the layer's `info` for tile sizes and level
  limits, as the source does through the map.

## Findings

| source | as written | input that shows it | evidently intended | confidence | as-written member | corrected member |
|---|---|---|---|---|---|---|
| src/com/easygis/util/CoordinatorTranslation.java:213 | `mResoultion / (2 ^ zoom)` divides by the bitwise xor of 2 and zoom | zoom 0 gives base/2 instead of base (test expects 156543.0339280); zoom 2 divides by 0 | divide by 2 to the power zoom, halving per level | high (not executed) | Projection.ResolutionAsWrittenDefect | Projection.ResolutionHalves |
| src/com/easygis/map/EMap.java:62 | `getCenter` returns ((right-left)/2, (bottom-top)/2), the half extents | bounds (100, 100, 200, 200) give (50, 50), outside the viewport | the midpoint ((left+right)/2, (top+bottom)/2) | high (not executed) | MapModel.CenterAsWrittenDefect | MapModel.Midpoint |
| src/com/easygis/map/service/LocalTileDataLoader.java:179 | `compareTo` returns 1 or -1, never 0 | two markers with the same timestamp each compare below the other; a marker compares below itself | 0 for equal timestamps, so that the comparison is antisymmetric | high (not executed) | Tiles.CompareToAsWrittenNotAntisymmetric | Tiles.CompareToIsTotalPreorder |
