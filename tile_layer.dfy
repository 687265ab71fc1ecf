/**
 * TileLayer: the layer that turns the current viewport into a list of tiles
 * placed at pixel offsets (the update runnable), sizes the off-screen
 * buffer (the config runnable) and hands the list to a render worker.
 *
 * The message queue, the worker thread and their locking are not modelled:
 * each runnable and each pass of the worker loop is one sequential method
 * that writes the fields the Java code writes.
 */
module TileLayers {
  import opened Geometry
  import opened Projection
  import opened Tiles
  import opened Cache
  import opened Loader

  datatype WorkerState = NONE | RENDER | DONE | DIED

  /** A tile to be drawn with its top-left corner at (offsetX, offsetY). */
  datatype PixelTile = PixelTile(offsetX: int, offsetY: int, tile: Tile)

  /* ---------------------------------------------------------------------
     The tile window of the update runnable
     --------------------------------------------------------------------- */

  /** First index and pixel offset on one axis. */
  datatype Edge = Edge(start: int, offset: int)

  /** The edge adjustment of one axis: a positive offset moves the first
      index back by one tile, an offset more than one tile to the left moves
      it forward by one. */
  function AdjustEdge(start: int, offset: int, size: int): Edge
  {
    if offset > 0 then Edge(start - 1, offset - size)
    else if offset < 0 && -offset > size then Edge(start + 1, offset + size)
    else Edge(start, offset)
  }

  /** The adjustment moves the first index by at most one and keeps the
      pixel `start*size - offset` it starts from. A positive offset up to a
      tile becomes one in (-size, 0]; offsets in [-size, 0], -size included,
      are left alone. */
  lemma AdjustEdgeSpec(start: int, offset: int, size: int)
    ensures var e := AdjustEdge(start, offset, size);
            && e.start * size - e.offset == start * size - offset
            && start - 1 <= e.start <= start + 1
            && (0 < offset <= size ==> e.start == start - 1 && -size < e.offset <= 0)
            && (-size <= offset <= 0 ==> e == Edge(start, offset))
  {
    var e := AdjustEdge(start, offset, size);
    if offset > 0 {
      assert e.start * size == start * size - size;
    } else if offset < 0 && -offset > size {
      assert e.start * size == start * size + size;
    }
  }

  /** What the update runnable computes before its loops: the first and
      last row and column, the adjusted pixel offset of the first tile, the
      tile size in pixels and the last row and column the level has. */
  datatype Window = Window(startRow: int, endRow: int, startCol: int, endCol: int,
                           offsetX: int, offsetY: int, tileWidth: int, tileHeight: int,
                           maxRow: int, maxCol: int)

  /** The window for viewport `b` at `zoom`: rows and columns from the tiles
      holding the top-left and bottom-right corners (index 0 of the tile
      pair is the column), the offset `(int) -(px - startCol*tileWidth)`,
      then the edge adjustment on each axis. */
  function ViewWindow(t: Translation, b: Bounds, zoom: int, info: MapInfo): Window
    requires WellFormed(t) && 0 <= zoom < |info.levels|
  {
    var topLeft := MercatorToTile(t, b.left, b.top, zoom);
    var bottomRight := MercatorToTile(t, b.right, b.bottom, zoom);
    var pixels := MercatorToPixels(t, b.left, b.top, zoom);
    var tw, th := info.tileWidth, info.tileHeight;
    var x := AdjustEdge(topLeft.x, Trunc(-(pixels.x - (topLeft.x * tw) as real)), tw);
    var y := AdjustEdge(topLeft.y, Trunc(-(pixels.y - (topLeft.y * th) as real)), th);
    Window(y.start, bottomRight.y, x.start, bottomRight.x, x.offset, y.offset, tw, th,
           info.levels[zoom].maxRow, info.levels[zoom].maxCol)
  }

  /** With tiles of the translation's own size, the unadjusted offset
      already lies in [-size, 0], so the adjustment never applies (in exact
      arithmetic): the first index is the corner's tile and the first tile
      starts less than one pixel from the corner's pixel position. */
  lemma FirstTileOffset(size: int, p: real, start: int)
    requires size > 0
    requires start * size < Trunc(p) <= (start + 1) * size
    ensures var offset := Trunc(-(p - (start * size) as real));
            && -size <= offset <= 0
            && AdjustEdge(start, offset, size) == Edge(start, offset)
            && ((start * size - offset) as real) - 1.0 < p < ((start * size - offset) as real) + 1.0
  {
    var offset := Trunc(-(p - (start * size) as real));
    AdjustEdgeSpec(start, offset, size);
  }

  /** The columns of the window: the first column is the tile of the left
      edge, unadjusted, and its offset puts the left edge's pixel within one
      pixel of the screen's left side. The same holds for rows when tiles
      are square. */
  lemma ViewWindowStart(t: Translation, b: Bounds, zoom: int, info: MapInfo)
    requires 0 <= zoom < |info.levels| && info.tileWidth > 0
    requires t == WithTileSize(info.tileWidth)
    ensures var w := ViewWindow(t, b, zoom, info);
            var px := MercatorToPixels(t, b.left, b.top, zoom);
            && w.startCol == MercatorToTile(t, b.left, b.top, zoom).x
            && -info.tileWidth <= w.offsetX <= 0
            && ((w.startCol * info.tileWidth - w.offsetX) as real) - 1.0 < px.x
            && px.x < ((w.startCol * info.tileWidth - w.offsetX) as real) + 1.0
    ensures var w := ViewWindow(t, b, zoom, info);
            var px := MercatorToPixels(t, b.left, b.top, zoom);
            info.tileHeight == info.tileWidth ==>
              && w.startRow == MercatorToTile(t, b.left, b.top, zoom).y
              && -info.tileHeight <= w.offsetY <= 0
              && ((w.startRow * info.tileHeight - w.offsetY) as real) - 1.0 < px.y
              && px.y < ((w.startRow * info.tileHeight - w.offsetY) as real) + 1.0
  {
    var topLeft := MercatorToTile(t, b.left, b.top, zoom);
    var px := MercatorToPixels(t, b.left, b.top, zoom);
    FirstTileOffset(info.tileWidth, px.x, topLeft.x);
    if info.tileHeight == info.tileWidth {
      FirstTileOffset(info.tileHeight, px.y, topLeft.y);
    }
  }

  /** A left edge exactly on the boundary pixel k*size belongs to tile k-1,
      so the window starts one whole tile off-screen, at offset -size. */
  lemma LeftEdgeOnTileBoundary(t: Translation, b: Bounds, zoom: int, info: MapInfo, k: int)
    requires 0 <= zoom < |info.levels| && info.tileWidth > 0
    requires t == WithTileSize(info.tileWidth)
    requires MercatorToPixels(t, b.left, b.top, zoom).x == (k * info.tileWidth) as real
    ensures ViewWindow(t, b, zoom, info).startCol == k - 1
    ensures ViewWindow(t, b, zoom, info).offsetX == -info.tileWidth
  {
    var topLeft := MercatorToTile(t, b.left, b.top, zoom);
    var px := MercatorToPixels(t, b.left, b.top, zoom);
    assert Trunc(px.x) == k * info.tileWidth;
    CeilDivUnique(k * info.tileWidth, info.tileWidth, k);
    CeilDivUnique(k * info.tileWidth, info.tileWidth, topLeft.x + 1);
    FirstTileOffset(info.tileWidth, px.x, topLeft.x);
  }

  /* ---------------------------------------------------------------------
     The cells the loops visit
     --------------------------------------------------------------------- */

  /** Tile (row, col) and where the loops place it. */
  datatype Cell = Cell(row: int, col: int, offsetX: int, offsetY: int)

  /** Tile (i, j) at (offsetX + (j-startCol)*tileWidth, offsetY + (i-startRow)*tileHeight). */
  function CellAt(w: Window, i: int, j: int): Cell
  {
    Cell(i, j, w.offsetX + (j - w.startCol) * w.tileWidth, w.offsetY + (i - w.startRow) * w.tileHeight)
  }

  /** Only tiles within the level's last row and column are requested; there
      is no lower clip. */
  predicate Requested(w: Window, i: int, j: int)
  {
    j <= w.maxCol && i <= w.maxRow
  }

  /** The requested cells of row i with column in [startCol, jEnd). */
  function RowCells(w: Window, i: int, jEnd: int): seq<Cell>
    decreases jEnd - w.startCol
  {
    if jEnd <= w.startCol then []
    else RowCells(w, i, jEnd - 1) + (if Requested(w, i, jEnd - 1) then [CellAt(w, i, jEnd - 1)] else [])
  }

  /** The requested cells of rows [startRow, iEnd), row by row. */
  function GridCells(w: Window, iEnd: int): seq<Cell>
    decreases iEnd - w.startRow
  {
    if iEnd <= w.startRow then []
    else GridCells(w, iEnd - 1) + RowCells(w, iEnd - 1, w.endCol + 1)
  }

  /** Every cell the nested loops request, in the order they request them. */
  function VisibleCells(w: Window): seq<Cell>
  {
    GridCells(w, w.endRow + 1)
  }

  predicate Before(r1: int, c1: int, r2: int, c2: int)
  {
    r1 < r2 || (r1 == r2 && c1 < c2)
  }

  /** Strictly row-major order. */
  predicate RowMajor(cells: seq<Cell>)
  {
    forall a, b :: 0 <= a < b < |cells| ==> Before(cells[a].row, cells[a].col, cells[b].row, cells[b].col)
  }

  lemma RowMajorAppend(xs: seq<Cell>, ys: seq<Cell>)
    requires RowMajor(xs) && RowMajor(ys)
    requires forall a, b :: 0 <= a < |xs| && 0 <= b < |ys| ==> Before(xs[a].row, xs[a].col, ys[b].row, ys[b].col)
    ensures RowMajor(xs + ys)
  {
    var s := xs + ys;
    forall a, b | 0 <= a < b < |s|
      ensures Before(s[a].row, s[a].col, s[b].row, s[b].col)
    {
      if b < |xs| {
        assert s[a] == xs[a] && s[b] == xs[b];
      } else if a >= |xs| {
        assert s[a] == ys[a - |xs|] && s[b] == ys[b - |xs|];
      } else {
        assert s[a] == xs[a] && s[b] == ys[b - |xs|];
      }
    }
  }

  /** Row i's cells are exactly the requested columns of [startCol, jEnd),
      each placed by CellAt, in increasing column order. */
  lemma {:induction false} RowCellsSpec(w: Window, i: int, jEnd: int)
    ensures forall c :: c in RowCells(w, i, jEnd) ==>
              c.row == i && w.startCol <= c.col < jEnd && Requested(w, c.row, c.col) && c == CellAt(w, c.row, c.col)
    ensures forall j :: w.startCol <= j < jEnd && Requested(w, i, j) ==> CellAt(w, i, j) in RowCells(w, i, jEnd)
    ensures RowMajor(RowCells(w, i, jEnd))
    decreases jEnd - w.startCol
  {
    if jEnd > w.startCol {
      RowCellsSpec(w, i, jEnd - 1);
      var prefix := RowCells(w, i, jEnd - 1);
      var last := if Requested(w, i, jEnd - 1) then [CellAt(w, i, jEnd - 1)] else [];
      RowMajorAppend(prefix, last);
    }
  }

  /** Rows [startRow, iEnd): exactly the requested cells with row in that
      range and column in [startCol, endCol], in row-major order. */
  lemma {:induction false} GridCellsSpec(w: Window, iEnd: int)
    ensures forall c :: c in GridCells(w, iEnd) ==>
              && w.startRow <= c.row < iEnd && w.startCol <= c.col <= w.endCol
              && Requested(w, c.row, c.col) && c == CellAt(w, c.row, c.col)
    ensures forall i, j :: w.startRow <= i < iEnd && w.startCol <= j <= w.endCol && Requested(w, i, j) ==>
              CellAt(w, i, j) in GridCells(w, iEnd)
    ensures RowMajor(GridCells(w, iEnd))
    decreases iEnd - w.startRow
  {
    if iEnd > w.startRow {
      GridCellsSpec(w, iEnd - 1);
      RowCellsSpec(w, iEnd - 1, w.endCol + 1);
      var prefix := GridCells(w, iEnd - 1);
      var row := RowCells(w, iEnd - 1, w.endCol + 1);
      forall a, b | 0 <= a < |prefix| && 0 <= b < |row|
        ensures Before(prefix[a].row, prefix[a].col, row[b].row, row[b].col)
      {
        assert prefix[a] in prefix && row[b] in row;
      }
      RowMajorAppend(prefix, row);
    }
  }

  /** The visible cells are exactly the requested tiles of the window's row
      and column range, each at its CellAt offset, in row-major order. */
  lemma VisibleCellsSpec(w: Window)
    ensures forall c :: c in VisibleCells(w) ==>
              && w.startRow <= c.row <= w.endRow && w.startCol <= c.col <= w.endCol
              && Requested(w, c.row, c.col) && c == CellAt(w, c.row, c.col)
    ensures forall i, j :: w.startRow <= i <= w.endRow && w.startCol <= j <= w.endCol && Requested(w, i, j) ==>
              CellAt(w, i, j) in VisibleCells(w)
    ensures RowMajor(VisibleCells(w))
  {
    GridCellsSpec(w, w.endRow + 1);
  }

  /* ---------------------------------------------------------------------
     The list built from the cells
     --------------------------------------------------------------------- */

  /** The list the loops build when the k-th request returned outcomes[k]:
      a tile that came back (with a bitmap) is appended at its cell's offset,
      a missing one is skipped. */
  function Collect(cells: seq<Cell>, outcomes: seq<Tile?>): (list: seq<PixelTile>)
    requires |cells| == |outcomes|
    ensures |list| <= |cells|
  {
    if cells == [] then []
    else
      var n := |cells| - 1;
      Collect(cells[..n], outcomes[..n])
      + (if outcomes[n] != null && outcomes[n].data != null
         then [PixelTile(cells[n].offsetX, cells[n].offsetY, outcomes[n])] else [])
  }

  /** Request k came back with the tile of cell k at `zoom`. */
  predicate Answers(cells: seq<Cell>, outcomes: seq<Tile?>, zoom: int)
    requires |cells| == |outcomes|
  {
    forall k :: 0 <= k < |outcomes| && outcomes[k] != null ==>
      Keyed(TileKey(cells[k].row, cells[k].col, zoom), outcomes[k])
  }

  /** An entry is placed where its own tile belongs in the window. */
  predicate Placed(w: Window, p: PixelTile, zoom: int)
  {
    && w.startRow <= p.tile.row <= w.endRow && w.startCol <= p.tile.col <= w.endCol
    && Requested(w, p.tile.row, p.tile.col) && p.tile.zoom == zoom && p.tile.data != null
    && p.offsetX == CellAt(w, p.tile.row, p.tile.col).offsetX
    && p.offsetY == CellAt(w, p.tile.row, p.tile.col).offsetY
  }

  predicate TilesRowMajor(list: seq<PixelTile>)
  {
    forall a, b :: 0 <= a < b < |list| ==> Before(list[a].tile.row, list[a].tile.col, list[b].tile.row, list[b].tile.col)
  }

  /** Every entry of the list is the tile of one of the requests, placed at
      that request's cell. */
  lemma {:induction false} CollectFrom(cells: seq<Cell>, outcomes: seq<Tile?>, p: PixelTile)
    requires |cells| == |outcomes| && p in Collect(cells, outcomes)
    ensures exists k :: 0 <= k < |cells| && outcomes[k] != null && outcomes[k].data != null &&
              p == PixelTile(cells[k].offsetX, cells[k].offsetY, outcomes[k])
  {
    var n := |cells| - 1;
    if p in Collect(cells[..n], outcomes[..n]) {
      CollectFrom(cells[..n], outcomes[..n], p);
      var k :| 0 <= k < n && outcomes[..n][k] != null && outcomes[..n][k].data != null &&
               p == PixelTile(cells[..n][k].offsetX, cells[..n][k].offsetY, outcomes[..n][k]);
      assert outcomes[..n][k] == outcomes[k] && cells[..n][k] == cells[k];
    }
  }

  /** Every tile that came back with a bitmap is in the list. */
  lemma {:induction false} CollectComplete(cells: seq<Cell>, outcomes: seq<Tile?>, k: int)
    requires |cells| == |outcomes| && 0 <= k < |cells|
    requires outcomes[k] != null && outcomes[k].data != null
    ensures PixelTile(cells[k].offsetX, cells[k].offsetY, outcomes[k]) in Collect(cells, outcomes)
  {
    var n := |cells| - 1;
    if k < n {
      assert outcomes[..n][k] == outcomes[k] && cells[..n][k] == cells[k];
      CollectComplete(cells[..n], outcomes[..n], k);
    }
  }

  lemma AnswersPrefix(cells: seq<Cell>, outcomes: seq<Tile?>, zoom: int, n: int)
    requires |cells| == |outcomes| && 0 <= n <= |cells| && Answers(cells, outcomes, zoom)
    ensures Answers(cells[..n], outcomes[..n], zoom)
  {
    forall k | 0 <= k < n && outcomes[..n][k] != null
      ensures Keyed(TileKey(cells[..n][k].row, cells[..n][k].col, zoom), outcomes[..n][k])
    {
      assert outcomes[..n][k] == outcomes[k] && cells[..n][k] == cells[k];
    }
  }

  /** When the requests come in row-major order and each answer is the
      requested tile, the list is in row-major order of its tiles. */
  lemma {:induction false} CollectRowMajor(cells: seq<Cell>, outcomes: seq<Tile?>, zoom: int)
    requires |cells| == |outcomes| && Answers(cells, outcomes, zoom) && RowMajor(cells)
    ensures TilesRowMajor(Collect(cells, outcomes))
  {
    if cells != [] {
      var n := |cells| - 1;
      var prefix := Collect(cells[..n], outcomes[..n]);
      AnswersPrefix(cells, outcomes, zoom, n);
      CollectRowMajor(cells[..n], outcomes[..n], zoom);
      var list := Collect(cells, outcomes);
      if outcomes[n] != null && outcomes[n].data != null {
        forall a, b | 0 <= a < b < |list|
          ensures Before(list[a].tile.row, list[a].tile.col, list[b].tile.row, list[b].tile.col)
        {
          if b == |prefix| {
            CollectFrom(cells[..n], outcomes[..n], list[a]);
            var k :| 0 <= k < n && outcomes[..n][k] != null && list[a].tile == outcomes[..n][k];
            assert outcomes[..n][k] == outcomes[k];
            assert Before(cells[k].row, cells[k].col, cells[n].row, cells[n].col);
          }
        }
      }
    }
  }

  /** Collect keeps the cells' order and places every tile it keeps at its
      own row and column's offset; every tile that came back is kept. */
  lemma CollectSpec(w: Window, cells: seq<Cell>, outcomes: seq<Tile?>, zoom: int)
    requires |cells| == |outcomes| && Answers(cells, outcomes, zoom)
    requires forall c :: c in cells ==>
               && w.startRow <= c.row <= w.endRow && w.startCol <= c.col <= w.endCol
               && Requested(w, c.row, c.col) && c == CellAt(w, c.row, c.col)
    requires RowMajor(cells)
    ensures forall p :: p in Collect(cells, outcomes) ==> Placed(w, p, zoom)
    ensures TilesRowMajor(Collect(cells, outcomes))
    ensures forall k :: 0 <= k < |cells| && outcomes[k] != null && outcomes[k].data != null ==>
              PixelTile(cells[k].offsetX, cells[k].offsetY, outcomes[k]) in Collect(cells, outcomes)
  {
    forall p | p in Collect(cells, outcomes)
      ensures Placed(w, p, zoom)
    {
      CollectFrom(cells, outcomes, p);
      var k :| 0 <= k < |cells| && outcomes[k] != null && outcomes[k].data != null &&
               p == PixelTile(cells[k].offsetX, cells[k].offsetY, outcomes[k]);
      assert cells[k] in cells;
    }
    CollectRowMajor(cells, outcomes, zoom);
    forall k | 0 <= k < |cells| && outcomes[k] != null && outcomes[k].data != null
      ensures PixelTile(cells[k].offsetX, cells[k].offsetY, outcomes[k]) in Collect(cells, outcomes)
    {
      CollectComplete(cells, outcomes, k);
    }
  }

  /** The update's list, for any answers the loader gives: every entry is a
      requested tile of the window at its own row and column's offset, the
      list is in row-major order, and every tile that came back is in it. */
  lemma UpdateListSpec(w: Window, outcomes: seq<Tile?>, zoom: int)
    requires |outcomes| == |VisibleCells(w)| && Answers(VisibleCells(w), outcomes, zoom)
    ensures forall p :: p in Collect(VisibleCells(w), outcomes) ==> Placed(w, p, zoom)
    ensures TilesRowMajor(Collect(VisibleCells(w), outcomes))
    ensures forall k :: 0 <= k < |outcomes| && outcomes[k] != null && outcomes[k].data != null ==>
              PixelTile(VisibleCells(w)[k].offsetX, VisibleCells(w)[k].offsetY, outcomes[k])
                in Collect(VisibleCells(w), outcomes)
  {
    VisibleCellsSpec(w);
    CollectSpec(w, VisibleCells(w), outcomes, zoom);
  }

  /** Request k came back empty only when tile k's file does not decode. */
  predicate SkippedOnlyUndecodable(disk: (int, int, int) -> Decoded, cells: seq<Cell>, outcomes: seq<Tile?>, zoom: int)
    requires |cells| == |outcomes|
  {
    forall k :: 0 <= k < |outcomes| && outcomes[k] == null ==>
      disk(cells[k].row, cells[k].col, zoom).Undecodable?
  }

  /** The k-th request was for cell k and came back with its tile or, only
      for a file that does not decode, with nothing. */
  predicate Requests(disk: (int, int, int) -> Decoded, cells: seq<Cell>, outcomes: seq<Tile?>, zoom: int)
  {
    |cells| == |outcomes| && Answers(cells, outcomes, zoom) && SkippedOnlyUndecodable(disk, cells, outcomes, zoom)
  }

  /** One more request: the list grows by the tile when it came back. */
  lemma RequestsSnoc(disk: (int, int, int) -> Decoded, cells: seq<Cell>, outcomes: seq<Tile?>, zoom: int,
                     c: Cell, t: Tile?)
    requires Requests(disk, cells, outcomes, zoom)
    requires t != null ==> Keyed(TileKey(c.row, c.col, zoom), t)
    requires t == null ==> disk(c.row, c.col, zoom).Undecodable?
    ensures Requests(disk, cells + [c], outcomes + [t], zoom)
    ensures Collect(cells + [c], outcomes + [t]) ==
            Collect(cells, outcomes) + (if t != null && t.data != null then [PixelTile(c.offsetX, c.offsetY, t)] else [])
  {
    var cs, os := cells + [c], outcomes + [t];
    assert cs[..|cells|] == cells && os[..|outcomes|] == outcomes;
  }

  /** The list of two stretches of requests is the two lists joined. */
  lemma {:induction false} CollectConcat(c1: seq<Cell>, o1: seq<Tile?>, c2: seq<Cell>, o2: seq<Tile?>)
    requires |c1| == |o1| && |c2| == |o2|
    ensures Collect(c1 + c2, o1 + o2) == Collect(c1, o1) + Collect(c2, o2)
    decreases |c2|
  {
    if c2 == [] {
      assert c1 + c2 == c1 && o1 + o2 == o1;
    } else {
      var n := |c2| - 1;
      var cs, os := c1 + c2, o1 + o2;
      var last := if o2[n] != null && o2[n].data != null then [PixelTile(c2[n].offsetX, c2[n].offsetY, o2[n])] else [];
      assert cs[..|cs| - 1] == c1 + c2[..n] && os[..|os| - 1] == o1 + o2[..n];
      assert cs[|cs| - 1] == c2[n] && os[|os| - 1] == o2[n];
      assert Collect(cs, os) == Collect(c1 + c2[..n], o1 + o2[..n]) + last;
      assert Collect(c2, o2) == Collect(c2[..n], o2[..n]) + last;
      CollectConcat(c1, o1, c2[..n], o2[..n]);
    }
  }

  /** Requests of two stretches, one after the other. */
  lemma RequestsConcat(disk: (int, int, int) -> Decoded, c1: seq<Cell>, o1: seq<Tile?>,
                       c2: seq<Cell>, o2: seq<Tile?>, zoom: int)
    requires Requests(disk, c1, o1, zoom) && Requests(disk, c2, o2, zoom)
    ensures Requests(disk, c1 + c2, o1 + o2, zoom)
    ensures Collect(c1 + c2, o1 + o2) == Collect(c1, o1) + Collect(c2, o2)
  {
    var cs, os := c1 + c2, o1 + o2;
    forall k | 0 <= k < |os|
      ensures cs[k] == (if k < |c1| then c1[k] else c2[k - |c1|])
      ensures os[k] == (if k < |o1| then o1[k] else o2[k - |o1|])
    {
    }
    CollectConcat(c1, o1, c2, o2);
  }

  /** `list` is what the requests produced, behind a countdown that keeps
      Collect and the quantifiers of Requests out of the loops below
      (ListingIs opens it). */
  ghost predicate Listing(disk: (int, int, int) -> Decoded, cells: seq<Cell>, outcomes: seq<Tile?>,
                          zoom: int, list: seq<PixelTile>, n: nat)
    decreases n
  {
    if n == 0 then Requests(disk, cells, outcomes, zoom) && list == Collect(cells, outcomes)
    else Listing(disk, cells, outcomes, zoom, list, n - 1)
  }

  lemma ListingIs(disk: (int, int, int) -> Decoded, cells: seq<Cell>, outcomes: seq<Tile?>,
                  zoom: int, list: seq<PixelTile>)
    ensures Listing(disk, cells, outcomes, zoom, list, 3) <==>
            Requests(disk, cells, outcomes, zoom) && list == Collect(cells, outcomes)
  {
    assert Listing(disk, cells, outcomes, zoom, list, 3) == Listing(disk, cells, outcomes, zoom, list, 2);
    assert Listing(disk, cells, outcomes, zoom, list, 2) == Listing(disk, cells, outcomes, zoom, list, 1);
    assert Listing(disk, cells, outcomes, zoom, list, 1) == Listing(disk, cells, outcomes, zoom, list, 0);
  }

  lemma ListingSnoc(disk: (int, int, int) -> Decoded, cells: seq<Cell>, outcomes: seq<Tile?>,
                    zoom: int, list: seq<PixelTile>, c: Cell, t: Tile?)
    requires Listing(disk, cells, outcomes, zoom, list, 3)
    requires t != null ==> Keyed(TileKey(c.row, c.col, zoom), t)
    requires t == null ==> disk(c.row, c.col, zoom).Undecodable?
    ensures Listing(disk, cells + [c], outcomes + [t], zoom,
                    list + (if t != null && t.data != null then [PixelTile(c.offsetX, c.offsetY, t)] else []), 3)
  {
    ListingIs(disk, cells, outcomes, zoom, list);
    RequestsSnoc(disk, cells, outcomes, zoom, c, t);
    ListingIs(disk, cells + [c], outcomes + [t], zoom,
              list + (if t != null && t.data != null then [PixelTile(c.offsetX, c.offsetY, t)] else []));
  }

  lemma ListingConcat(disk: (int, int, int) -> Decoded, c1: seq<Cell>, o1: seq<Tile?>, l1: seq<PixelTile>,
                      c2: seq<Cell>, o2: seq<Tile?>, l2: seq<PixelTile>, zoom: int)
    requires Listing(disk, c1, o1, zoom, l1, 3) && Listing(disk, c2, o2, zoom, l2, 3)
    ensures Listing(disk, c1 + c2, o1 + o2, zoom, l1 + l2, 3)
  {
    ListingIs(disk, c1, o1, zoom, l1);
    ListingIs(disk, c2, o2, zoom, l2);
    RequestsConcat(disk, c1, o1, c2, o2, zoom);
    ListingIs(disk, c1 + c2, o1 + o2, zoom, l1 + l2);
  }

  lemma ListingEmpty(disk: (int, int, int) -> Decoded, zoom: int)
    ensures Listing(disk, [], [], zoom, [], 3)
  {
    ListingIs(disk, [], [], zoom, []);
  }

  /* ---------------------------------------------------------------------
     The layer
     --------------------------------------------------------------------- */

  /** The loader is valid, behind a countdown that keeps the body of
      Valid() out of the loops below (LoaderReadyIsValid opens it). */
  ghost predicate LoaderReady(loader: LocalTileDataLoader, n: nat)
    reads loader, loader.cache, loader.cache.Repr
    decreases n
  {
    if n == 0 then loader.Valid() else LoaderReady(loader, n - 1)
  }

  lemma LoaderReadyIsValid(loader: LocalTileDataLoader)
    ensures LoaderReady(loader, 3) <==> loader.Valid()
  {
    assert LoaderReady(loader, 3) == LoaderReady(loader, 2);
    assert LoaderReady(loader, 2) == LoaderReady(loader, 1);
    assert LoaderReady(loader, 1) == LoaderReady(loader, 0);
  }

  /** The off-screen buffer bitmap: its size, whether it has been recycled
      and the tile lists composited onto it, oldest first. */
  class Raster {
    var width: int
    var height: int
    var recycled: bool
    var drawn: seq<seq<PixelTile>>

    /** Bitmap.createBitmap(width, height, ARGB_4444). */
    constructor (width: int, height: int)
      ensures this.width == width && this.height == height && !recycled && drawn == []
    {
      this.width, this.height := width, height;
      recycled := false;
      drawn := [];
    }
  }

  /** What one pass of the worker loop did. */
  datatype WorkerStep = Exited | Waited | Drew

  class TileLayer {
    /** mMap.getMapInfo(). */
    var info: MapInfo
    /** `new CoordinatorTranslation((int) mTileWidth)`. */
    var translation: Translation
    const loader: LocalTileDataLoader
    var currentTiles: seq<PixelTile>
    var buffer: Raster?
    /** mBounds: null until the first updateBounds. */
    var bounds: Option<Bounds>
    var state: WorkerState
    /** mMessageHandler != null. */
    var handlerAlive: bool
    /** Update runnables posted and not yet removed. */
    var pendingUpdates: nat
    /** The drawing scale, 1.0F at first. */
    var scale: real

    ghost predicate Valid()
      reads this, loader, loader.cache, loader.cache.Repr
    {
      && loader.Valid()
      && info.tileWidth > 0 && translation == WithTileSize(info.tileWidth)
      && this !in loader.cache.Repr
      && (buffer != null ==> buffer !in loader.cache.Repr)
    }

    /** `new TileLayer(context, map, loader)`: updateMapInfo(map), which
        starts the render machinery, then the loader. */
    constructor (info: MapInfo, loader: LocalTileDataLoader)
      requires info.tileWidth > 0 && loader.Valid()
      ensures Valid()
      ensures this.info == info && translation == WithTileSize(info.tileWidth) && this.loader == loader
      ensures currentTiles == [] && buffer == null && bounds == None && scale == 1.0
      ensures state == NONE && handlerAlive && pendingUpdates == 0
    {
      this.info := info;
      translation := WithTileSize(info.tileWidth);
      this.loader := loader;
      currentTiles := [];
      buffer := null;
      bounds := None;
      scale := 1.0;
      pendingUpdates := 0;
      state := NONE;
      handlerAlive := true;
    }

    /** updateMapInfo: a new map configuration and translation, then
        startRender. */
    method UpdateMapInfo(info: MapInfo)
      requires Valid() && info.tileWidth > 0
      modifies this
      ensures Valid()
      ensures this.info == info && translation == WithTileSize(info.tileWidth)
      ensures state == NONE && handlerAlive
      ensures currentTiles == old(currentTiles) && buffer == old(buffer) && bounds == old(bounds)
      ensures pendingUpdates == old(pendingUpdates) && scale == old(scale)
    {
      this.info := info;
      translation := WithTileSize(info.tileWidth);
      StartRender();
    }

    /** startRender: the message handler exists and the worker state is
        NONE. */
    method StartRender()
      modifies this
      ensures state == NONE && handlerAlive
      ensures info == old(info) && translation == old(translation)
      ensures currentTiles == old(currentTiles) && buffer == old(buffer) && bounds == old(bounds)
      ensures pendingUpdates == old(pendingUpdates) && scale == old(scale)
    {
      handlerAlive := true;
      state := NONE;
    }

    /** stopRender: the queue quits (dropping what was posted), the handler
        is gone and the worker state is DIED. */
    method StopRender()
      modifies this
      ensures state == DIED && !handlerAlive && pendingUpdates == 0
      ensures info == old(info) && translation == old(translation)
      ensures currentTiles == old(currentTiles) && buffer == old(buffer) && bounds == old(bounds)
      ensures scale == old(scale)
    {
      handlerAlive := false;
      pendingUpdates := 0;
      state := DIED;
    }

    /** updateBounds(bounds): record the viewport and, when the handler
        exists, post the update runnable. */
    method UpdateBounds(b: Bounds)
      modifies this
      ensures bounds == Some(b)
      ensures pendingUpdates == old(pendingUpdates) + (if handlerAlive then 1 else 0)
      ensures handlerAlive == old(handlerAlive) && state == old(state)
      ensures info == old(info) && translation == old(translation)
      ensures currentTiles == old(currentTiles) && buffer == old(buffer) && scale == old(scale)
    {
      bounds := Some(b);
      if handlerAlive {
        pendingUpdates := pendingUpdates + 1;
      }
    }

    /** updateBounds(bounds, zoom): the zoom is ignored. */
    method UpdateBoundsAt(b: Bounds, zoom: int)
      modifies this
      ensures bounds == Some(b)
      ensures pendingUpdates == old(pendingUpdates) + (if handlerAlive then 1 else 0)
      ensures handlerAlive == old(handlerAlive) && state == old(state)
      ensures info == old(info) && translation == old(translation)
      ensures currentTiles == old(currentTiles) && buffer == old(buffer) && scale == old(scale)
    {
      UpdateBounds(b);
    }

    /** scale(sc): the drawing scale is multiplied by sc. */
    method Scale(sc: real)
      modifies this
      ensures scale == old(scale) * sc
      ensures bounds == old(bounds) && pendingUpdates == old(pendingUpdates)
      ensures handlerAlive == old(handlerAlive) && state == old(state)
      ensures info == old(info) && translation == old(translation)
      ensures currentTiles == old(currentTiles) && buffer == old(buffer)
    {
      scale := scale * sc;
    }

    /** mTileLoader.getTile(i, j, zoom) as the loops see it: the tile of
        (i, j) with its bitmap, or null only when its file does not decode. */
    method Fetch(i: int, j: int, zoom: int, now: int) returns (tile: Tile?)
      requires LoaderReady(loader, 3)
      modifies loader.cache, loader.cache.Entries()
      ensures LoaderReady(loader, 3) && fresh(loader.cache.Repr - old(loader.cache.Repr))
      ensures tile != null ==> Keyed(TileKey(i, j, zoom), tile) && tile.data != null
      ensures tile == null ==> loader.disk(i, j, zoom).Undecodable?
    {
      LoaderReadyIsValid(loader);
      tile := loader.GetTile(i, j, zoom, now);
      LoaderReadyIsValid(loader);
    }

    /** One pass of the inner loop: tile (i, j) is requested when it lies
        within the level's last row and column, and listed at
        (offsetX + indexJ*tileWidth, offsetY + indexI*tileHeight) when it
        comes back with a bitmap. */
    method Visit(w: Window, i: int, j: int, zoom: int, now: int, list: seq<PixelTile>,
                 ghost cells: seq<Cell>, ghost outcomes: seq<Tile?>)
      returns (list': seq<PixelTile>, ghost cells': seq<Cell>, ghost outcomes': seq<Tile?>)
      requires LoaderReady(loader, 3) && Listing(loader.disk, cells, outcomes, zoom, list, 3)
      requires w.startCol <= j && cells == RowCells(w, i, j)
      modifies loader.cache, loader.cache.Entries()
      ensures LoaderReady(loader, 3) && fresh(loader.cache.Repr - old(loader.cache.Repr))
      ensures cells' == RowCells(w, i, j + 1)
      ensures Listing(loader.disk, cells', outcomes', zoom, list', 3)
    {
      var indexI, indexJ := i - w.startRow, j - w.startCol;
      var tileOffsetX := w.offsetX + indexJ * w.tileWidth;
      var tileOffsetY := w.offsetY + indexI * w.tileHeight;
      list', cells', outcomes' := list, cells, outcomes;
      if j <= w.maxCol && i <= w.maxRow {
        var tile := Fetch(i, j, zoom, now);
        ListingSnoc(loader.disk, cells, outcomes, zoom, list, CellAt(w, i, j), tile);
        if tile != null && tile.data != null {
          list' := list + [PixelTile(tileOffsetX, tileOffsetY, tile)];
        }
        cells', outcomes' := cells + [CellAt(w, i, j)], outcomes + [tile];
      }
    }

    /** The inner loop of the update runnable for row i: request every
        column of the window within the level's last row and column and list
        the tiles that come back with a bitmap at their offsets. */
    method RequestRow(w: Window, i: int, zoom: int, now: int)
      returns (list: seq<PixelTile>, ghost cells: seq<Cell>, ghost outcomes: seq<Tile?>)
      requires LoaderReady(loader, 3)
      modifies loader.cache.Repr
      ensures LoaderReady(loader, 3) && fresh(loader.cache.Repr - old(loader.cache.Repr))
      ensures cells == RowCells(w, i, w.endCol + 1)
      ensures Listing(loader.disk, cells, outcomes, zoom, list, 3)
    {
      list, cells, outcomes := [], [], [];
      ListingEmpty(loader.disk, zoom);
      var j := w.startCol;
      while j <= w.endCol
        invariant w.startCol <= j && (j <= w.endCol + 1 || j == w.startCol)
        invariant cells == RowCells(w, i, j)
        invariant Listing(loader.disk, cells, outcomes, zoom, list, 3)
        invariant LoaderReady(loader, 3) && fresh(loader.cache.Repr - old(loader.cache.Repr))
        decreases w.endCol - j
      {
        LoaderReadyIsValid(loader);
        loader.cache.EntriesInRepr();
        list, cells, outcomes := Visit(w, i, j, zoom, now, list, cells, outcomes);
        j := j + 1;
      }
    }

    /** The nested loops of the update runnable, row by row. */
    method RequestTiles(w: Window, zoom: int, now: int) returns (list: seq<PixelTile>, ghost outcomes: seq<Tile?>)
      requires LoaderReady(loader, 3)
      modifies loader.cache.Repr
      ensures LoaderReady(loader, 3) && fresh(loader.cache.Repr - old(loader.cache.Repr))
      ensures Requests(loader.disk, VisibleCells(w), outcomes, zoom)
      ensures list == Collect(VisibleCells(w), outcomes)
    {
      list := [];
      ghost var cells: seq<Cell> := [];
      outcomes := [];
      ListingEmpty(loader.disk, zoom);
      var i := w.startRow;
      while i <= w.endRow
        invariant w.startRow <= i && (i <= w.endRow + 1 || i == w.startRow)
        invariant cells == GridCells(w, i)
        invariant Listing(loader.disk, cells, outcomes, zoom, list, 3)
        invariant LoaderReady(loader, 3) && fresh(loader.cache.Repr - old(loader.cache.Repr))
        decreases w.endRow - i
      {
        var row, rowCells, rowOutcomes := RequestRow(w, i, zoom, now);
        ListingConcat(loader.disk, cells, outcomes, list, rowCells, rowOutcomes, row, zoom);
        list, cells, outcomes := list + row, cells + rowCells, outcomes + rowOutcomes;
        i := i + 1;
      }
      ListingIs(loader.disk, cells, outcomes, zoom, list);
    }

    /** The update runnable: compute the window of the current bounds at
        `zoom` (mMap.getZoom()), request its tiles row by row, then replace
        the current list by the new one and ask the worker to render. */
    method RunUpdate(zoom: int, now: int) returns (ghost outcomes: seq<Tile?>)
      requires Valid() && bounds.Some? && 0 <= zoom < |info.levels|
      modifies this, loader.cache.Repr
      ensures info == old(info) && translation == old(translation) && bounds == old(bounds)
      ensures buffer == old(buffer) && handlerAlive == old(handlerAlive)
      ensures pendingUpdates == old(pendingUpdates) && scale == old(scale)
      ensures Valid() && fresh(loader.cache.Repr - old(loader.cache.Repr))
      ensures var w := ViewWindow(translation, bounds.value, zoom, info);
              && Requests(loader.disk, VisibleCells(w), outcomes, zoom)
              && currentTiles == Collect(VisibleCells(w), outcomes)
      ensures state == RENDER
    {
      var w := VisibleWindow(bounds.value, zoom);
      LoaderReadyIsValid(loader);
      var list;
      list, outcomes := RequestTiles(w, zoom, now);
      LoaderReadyIsValid(loader);
      currentTiles, state := list, RENDER;
    }

    /** The window computation of the update runnable: the tiles under the
        two corners of `b`, the first tile's pixel offset, its edge
        adjustment and the level's last row and column. */
    method VisibleWindow(b: Bounds, zoom: int) returns (w: Window)
      requires info.tileWidth > 0 && translation == WithTileSize(info.tileWidth)
      requires 0 <= zoom < |info.levels|
      ensures w == ViewWindow(translation, b, zoom, info)
    {
      var tileWidth, tileHeight := info.tileWidth, info.tileHeight;
      var topLeft := MercatorToTile(translation, b.left, b.top, zoom);
      var bottomRight := MercatorToTile(translation, b.right, b.bottom, zoom);
      var startRow, endRow := topLeft.y, bottomRight.y;
      var startCol, endCol := topLeft.x, bottomRight.x;
      var pixels := MercatorToPixels(translation, b.left, b.top, zoom);
      var offsetX := Trunc(-(pixels.x - (startCol * tileWidth) as real));
      var offsetY := Trunc(-(pixels.y - (startRow * tileHeight) as real));
      if offsetX > 0 {
        startCol := startCol - 1;
        offsetX := offsetX - tileWidth;
      } else if offsetX < 0 && -offsetX > tileWidth {
        startCol := startCol + 1;
        offsetX := offsetX + tileWidth;
      }
      if offsetY > 0 {
        startRow := startRow - 1;
        offsetY := offsetY - tileHeight;
      } else if offsetY < 0 && -offsetY > tileHeight {
        startRow := startRow + 1;
        offsetY := offsetY + tileHeight;
      }
      var level := info.levels[zoom];
      w := Window(startRow, endRow, startCol, endCol, offsetX, offsetY,
                 tileWidth, tileHeight, level.maxRow, level.maxCol);
    }

    /** The config runnable: drop the posted runnables, make the buffer
        exactly width x height (creating it, reconfiguring it in place when
        `reconfigureInPlace` -- KITKAT >= SDK_INT -- or recycling it and
        creating a new one), then ask the worker to render. */
    method RunConfig(width: int, height: int, reconfigureInPlace: bool)
      requires Valid() && handlerAlive
      modifies this, buffer
      ensures Valid()
      ensures buffer != null && buffer.width == width && buffer.height == height
      ensures state == RENDER && pendingUpdates == 0
      ensures old(buffer) == null ==> fresh(buffer) && !buffer.recycled && buffer.drawn == []
      ensures old(buffer) != null && old(buffer.width) == width && old(buffer.height) == height ==>
                buffer == old(buffer) && buffer.recycled == old(buffer.recycled) && buffer.drawn == old(buffer.drawn)
      ensures old(buffer) != null && (old(buffer.width) != width || old(buffer.height) != height) && reconfigureInPlace ==>
                buffer == old(buffer) && buffer.recycled == old(buffer.recycled) && buffer.drawn == old(buffer.drawn)
      ensures old(buffer) != null && (old(buffer.width) != width || old(buffer.height) != height) && !reconfigureInPlace ==>
                fresh(buffer) && !buffer.recycled && buffer.drawn == [] && old(buffer).recycled
      ensures info == old(info) && translation == old(translation) && currentTiles == old(currentTiles)
      ensures bounds == old(bounds) && handlerAlive == old(handlerAlive) && scale == old(scale)
    {
      pendingUpdates := 0;
      if buffer == null {
        buffer := new Raster(width, height);
      } else if buffer.width != width || buffer.height != height {
        if reconfigureInPlace {
          buffer.width, buffer.height := width, height;
        } else {
          buffer.recycled := true;
          buffer := new Raster(width, height);
        }
      }
      state := RENDER;
    }

    /** One pass of the worker loop: leave on DIED; wait (change nothing)
        in NONE or DONE, or in RENDER while there is no buffer; otherwise
        composite the current list onto the buffer and set DONE. */
    method WorkerPass() returns (step: WorkerStep)
      requires Valid()
      modifies this, buffer
      ensures buffer == old(buffer) && currentTiles == old(currentTiles)
      ensures info == old(info) && translation == old(translation) && bounds == old(bounds)
      ensures handlerAlive == old(handlerAlive) && pendingUpdates == old(pendingUpdates) && scale == old(scale)
      ensures Valid()
      ensures step == Exited <==> old(state) == DIED
      ensures step == Drew <==> old(state) == RENDER && old(buffer) != null
      ensures step == Drew ==> state == DONE && buffer.drawn == old(buffer.drawn) + [currentTiles]
      ensures step == Drew ==> buffer.width == old(buffer.width) && buffer.height == old(buffer.height)
      ensures step == Drew ==> buffer.recycled == old(buffer.recycled)
      ensures step != Drew ==> state == old(state) && (buffer != null ==> unchanged(buffer))
    {
      if state == DIED {
        step := Exited;
      } else if state != RENDER || buffer == null {
        step := Waited;
      } else {
        buffer.drawn := buffer.drawn + [currentTiles];
        state := DONE;
        step := Drew;
      }
    }
  }
}
