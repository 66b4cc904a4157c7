/**
 * `compute_needed_bitmap_tiles`: the zoom-9 bitmap tiles a viewport of
 * `width` x `height` view tiles at `(x, y)`, zoom `z`, touches. The bitmap
 * is a 512 x 512 grid; columns wrap around, rows outside it are dropped.
 *
 * The set is specified by unions over index ranges, each peeling its last
 * index, in the order the source's loops visit them: view rows, then view
 * columns, and for a zoom below 9 the bitmap rows and columns under one
 * view tile.
 */
module NeededTiles {
  import opened Primitives

  /** `TILE_ZOOM`: the zoom at which the bitmap stores tiles. */
  const TILE_ZOOM: int := 9
  /** `1i64 << 9` */
  const MAP_WIDTH: int := 512

  /** The tile at bitmap column `col`, row `row`: the column wraps, a row off the grid gives nothing. */
  function Emit(col: int, row: int): set<Coord> {
    if 0 <= row < MAP_WIDTH then {((col % MAP_WIDTH) as u16, row as u16)} else {}
  }

  /** Bitmap row `row`, columns `col0 .. col0 + n`. */
  function RowSpan(col0: int, row: int, n: int): set<Coord>
    decreases n
  {
    if n <= 0 then {} else RowSpan(col0, row, n - 1) + Emit(col0 + n - 1, row)
  }

  /** Bitmap rows `row0 .. row0 + m`, each with columns `col0 .. col0 + n`. */
  function BlockSpan(col0: int, row0: int, n: int, m: int): set<Coord>
    decreases m
  {
    if m <= 0 then {} else BlockSpan(col0, row0, n, m - 1) + RowSpan(col0, row0 + m - 1, n)
  }

  /**
   * The bitmap tiles under view tile `(vx, vy)`: at zoom 9 or more its
   * coordinates shifted right by `z - 9`; below zoom 9 the square of
   * `2^(9 - z)` bitmap tiles it spans.
   */
  function CellTiles(vx: int, vy: int, z: int): set<Coord> {
    if z >= TILE_ZOOM then
      Emit(Shr(vx, z - TILE_ZOOM), Shr(vy, z - TILE_ZOOM))
    else
      var scale := Pow2(TILE_ZOOM - z);
      BlockSpan(vx * scale, vy * scale, scale, scale)
  }

  /** View row `vy`, view columns `x .. x + n`. */
  function ViewRow(x: int, vy: int, z: int, n: int): set<Coord>
    decreases n
  {
    if n <= 0 then {} else ViewRow(x, vy, z, n - 1) + CellTiles(x + n - 1, vy, z)
  }

  /** The tiles the whole viewport needs. */
  function Needed(x: int, y: int, z: int, width: int, height: int): set<Coord>
    decreases height
  {
    if height <= 0 then {} else Needed(x, y, z, width, height - 1) + ViewRow(x, y + height - 1, z, width)
  }

  /**
   * The arguments for which the source's arithmetic neither panics nor
   * wraps: `z - 9` fits the i16 it is computed in; and when the loops run,
   * every shift amount is below 63 (so the scale is positive), and the
   * view coordinates and their scaled bitmap coordinates fit an i64.
   */
  predicate ArgumentsFit(x: int, y: int, z: int, width: int, height: int) {
    && IsI16(z) && IsI16(z - TILE_ZOOM)
    && IsI64(x) && IsI64(y) && IsI64(width) && IsI64(height)
    && (width > 0 && height > 0 ==>
          && TILE_ZOOM - 62 <= z <= TILE_ZOOM + 63
          && IsI64(x + width - 1) && IsI64(y + height - 1)
          && (z < TILE_ZOOM ==>
                && IsI64(x * Pow2(TILE_ZOOM - z)) && IsI64((x + width) * Pow2(TILE_ZOOM - z))
                && IsI64(y * Pow2(TILE_ZOOM - z)) && IsI64((y + height) * Pow2(TILE_ZOOM - z))))
  }

  /** The innermost `bbx` loop of the zoom-out branch of `compute_needed_bitmap_tiles`
      (map_renderer.rs:279-284): adds the wrapped tiles of one row of a block. */
  method AddTileRow(tiles: set<Coord>, colStart: int, row: int, scale: int)
    returns (tiles': set<Coord>)
    requires scale >= 1
    ensures tiles' == tiles + RowSpan(colStart, row, scale)
  {
    tiles' := tiles;
    var mapWidth := Pow2(TILE_ZOOM);
    var bbx := colStart;
    ghost var colsDone := 0;
    while bbx < colStart + scale
      invariant 0 <= colsDone <= scale && bbx == colStart + colsDone
      invariant tiles' == tiles + RowSpan(colStart, row, colsDone)
    {
      var wrapped := RustWrap(bbx, mapWidth);
      RustWrapIsEuclidean(bbx, mapWidth);
      if row >= 0 && row < mapWidth {
        tiles' := tiles' + {(wrapped as u16, row as u16)};
      }
      bbx := bbx + 1;
      colsDone := colsDone + 1;
    }
  }

  /** The `bby` loop of the zoom-out branch of `compute_needed_bitmap_tiles`
      (map_renderer.rs:278-285): adds the wrapped tiles of a `scale` by `scale` block. */
  method AddTileBlock(tiles: set<Coord>, colStart: int, rowStart: int, scale: int)
    returns (tiles': set<Coord>)
    requires scale >= 1
    ensures tiles' == tiles + BlockSpan(colStart, rowStart, scale, scale)
  {
    tiles' := tiles;
    var bby := rowStart;
    ghost var rowsDone := 0;
    while bby < rowStart + scale
      invariant 0 <= rowsDone <= scale && bby == rowStart + rowsDone
      invariant tiles' == tiles + BlockSpan(colStart, rowStart, scale, rowsDone)
    {
      tiles' := AddTileRow(tiles', colStart, bby, scale);
      bby := bby + 1;
      rowsDone := rowsDone + 1;
    }
  }

  /** The body of the view-tile loops of `compute_needed_bitmap_tiles`
      (map_renderer.rs:262-286): adds the bitmap tiles under view tile `(viewX, viewY)`. */
  method AddViewTile(tiles: set<Coord>, viewX: int, viewY: int, z: int)
    returns (tiles': set<Coord>)
    ensures tiles' == tiles + CellTiles(viewX, viewY, z)
  {
    var zoomDiff := z - TILE_ZOOM;
    var mapWidth := Pow2(TILE_ZOOM);
    if zoomDiff >= 0 {
      var col := Shr(viewX, zoomDiff);
      var row := Shr(viewY, zoomDiff);
      var colWrapped := RustWrap(col, mapWidth);
      RustWrapIsEuclidean(col, mapWidth);
      tiles' := tiles;
      if row >= 0 && row < mapWidth {
        tiles' := tiles' + {(colWrapped as u16, row as u16)};
      }
    } else {
      var scale := Pow2(-zoomDiff);
      var colStart, rowStart := viewX * scale, viewY * scale;
      tiles' := AddTileBlock(tiles, colStart, rowStart, scale);
    }
  }

  /** `compute_needed_bitmap_tiles` (map_renderer.rs:249-291). */
  method ComputeNeededBitmapTiles(x: int, y: int, z: int, width: int, height: int)
    returns (tiles: set<Coord>)
    requires ArgumentsFit(x, y, z, width, height)
    ensures tiles == Needed(x, y, z, width, height)
  {
    tiles := {};
    var dy := 0;
    while dy < height
      invariant 0 <= dy <= if height >= 0 then height else 0
      invariant tiles == Needed(x, y, z, width, dy)
    {
      ghost var rowsBefore := tiles;
      var dx := 0;
      while dx < width
        invariant 0 <= dx <= if width >= 0 then width else 0
        invariant tiles == rowsBefore + ViewRow(x, y + dy, z, dx)
      {
        tiles := AddViewTile(tiles, x + dx, y + dy, z);
        dx := dx + 1;
      }
      dy := dy + 1;
    }
  }

  lemma {:induction false} RowSpanMember(col0: int, row: int, n: int, c: Coord)
    ensures c in RowSpan(col0, row, n) <==> exists col :: col0 <= col < col0 + n && c in Emit(col, row)
    decreases n
  {
    if n > 0 {
      RowSpanMember(col0, row, n - 1, c);
      if c in Emit(col0 + n - 1, row) {
        assert col0 <= col0 + n - 1 < col0 + n;
      }
    }
  }

  lemma {:induction false} BlockSpanMember(col0: int, row0: int, n: int, m: int, c: Coord)
    ensures c in BlockSpan(col0, row0, n, m) <==> exists rr :: row0 <= rr < row0 + m && c in RowSpan(col0, rr, n)
    decreases m
  {
    if m > 0 {
      BlockSpanMember(col0, row0, n, m - 1, c);
      var last := row0 + m - 1;
      if c in RowSpan(col0, last, n) {
        assert row0 <= last < row0 + m;
      }
      if exists rr :: row0 <= rr < row0 + m && c in RowSpan(col0, rr, n) {
        var rr :| row0 <= rr < row0 + m && c in RowSpan(col0, rr, n);
        if rr < last {
          assert exists rr' :: row0 <= rr' < row0 + m - 1 && c in RowSpan(col0, rr', n);
          assert c in BlockSpan(col0, row0, n, m - 1);
          assert c in BlockSpan(col0, row0, n, m);
        } else {
          assert c in RowSpan(col0, last, n);
          assert c in BlockSpan(col0, row0, n, m);
        }
      }
    }
  }

  lemma {:induction false} ViewRowMember(x: int, vy: int, z: int, n: int, c: Coord)
    ensures c in ViewRow(x, vy, z, n) <==> exists vx :: x <= vx < x + n && c in CellTiles(vx, vy, z)
    decreases n
  {
    if n > 0 {
      ViewRowMember(x, vy, z, n - 1, c);
      if c in CellTiles(x + n - 1, vy, z) {
        assert x <= x + n - 1 < x + n;
      }
    }
  }

  /** A tile is needed exactly when it lies under some view tile of the viewport. */
  lemma {:induction false} NeededMember(x: int, y: int, z: int, width: int, height: int, c: Coord)
    ensures c in Needed(x, y, z, width, height) <==>
            exists vx, vy :: x <= vx < x + width && y <= vy < y + height && c in CellTiles(vx, vy, z)
    decreases height
  {
    if height > 0 {
      NeededMember(x, y, z, width, height - 1, c);
      ViewRowMember(x, y + height - 1, z, width, c);
      if c in ViewRow(x, y + height - 1, z, width) {
        var vx :| x <= vx < x + width && c in CellTiles(vx, y + height - 1, z);
        assert y <= y + height - 1 < y + height;
      }
      if exists vx, vy :: x <= vx < x + width && y <= vy < y + height && c in CellTiles(vx, vy, z) {
        var vx, vy :| x <= vx < x + width && y <= vy < y + height && c in CellTiles(vx, vy, z);
        if vy < y + height - 1 {
          assert exists vx', vy' :: x <= vx' < x + width && y <= vy' < y + height - 1 && c in CellTiles(vx', vy', z);
        } else {
          assert c in ViewRow(x, y + height - 1, z, width);
        }
      }
    }
  }

  /** Every tile under a view tile is on the 512 x 512 grid. */
  lemma CellTilesInGrid(vx: int, vy: int, z: int, c: Coord)
    requires c in CellTiles(vx, vy, z)
    ensures c.0 < 512 && c.1 < 512
  {
    if z < TILE_ZOOM {
      var scale := Pow2(TILE_ZOOM - z);
      BlockSpanMember(vx * scale, vy * scale, scale, scale, c);
      var rr :| vy * scale <= rr < vy * scale + scale && c in RowSpan(vx * scale, rr, scale);
      RowSpanMember(vx * scale, rr, scale, c);
    }
  }

  /** Every needed tile has both coordinates in `[0, 512)`. */
  lemma NeededInGrid(x: int, y: int, z: int, width: int, height: int)
    ensures forall c :: c in Needed(x, y, z, width, height) ==> c.0 < 512 && c.1 < 512
  {
    forall c | c in Needed(x, y, z, width, height)
      ensures c.0 < 512 && c.1 < 512
    {
      NeededMember(x, y, z, width, height, c);
      var vx, vy :| x <= vx < x + width && y <= vy < y + height && c in CellTiles(vx, vy, z);
      CellTilesInGrid(vx, vy, z, c);
    }
  }

  /** The bitmap cell view tile `(vx, vy)` shifts to at zoom `z >= 9`, before the column wraps. */
  function ShiftedCell(vx: int, vy: int, z: int): (int, int)
    requires z >= TILE_ZOOM
  {
    (Shr(vx, z - TILE_ZOOM), Shr(vy, z - TILE_ZOOM))
  }

  /**
   * At zoom 9 or more a tile is needed exactly when some view tile, shifted
   * right by `z - 9`, lands on it: the column taken modulo 512, the row taken
   * as it is and only if it is on the grid.
   */
  lemma NeededZoomedIn(x: int, y: int, z: int, width: int, height: int, c: Coord)
    requires z >= TILE_ZOOM
    ensures c in Needed(x, y, z, width, height) <==>
            exists vx, vy :: x <= vx < x + width && y <= vy < y + height
                             && 0 <= ShiftedCell(vx, vy, z).1 < MAP_WIDTH
                             && c.0 as int == ShiftedCell(vx, vy, z).0 % MAP_WIDTH
                             && c.1 as int == ShiftedCell(vx, vy, z).1
  {
    NeededMember(x, y, z, width, height, c);
    if c in Needed(x, y, z, width, height) {
      var vx, vy :| x <= vx < x + width && y <= vy < y + height && c in CellTiles(vx, vy, z);
      assert 0 <= ShiftedCell(vx, vy, z).1 < MAP_WIDTH;
    }
    if exists vx, vy :: x <= vx < x + width && y <= vy < y + height
                        && 0 <= ShiftedCell(vx, vy, z).1 < MAP_WIDTH
                        && c.0 as int == ShiftedCell(vx, vy, z).0 % MAP_WIDTH
                        && c.1 as int == ShiftedCell(vx, vy, z).1
    {
      var vx, vy :| x <= vx < x + width && y <= vy < y + height
                    && 0 <= ShiftedCell(vx, vy, z).1 < MAP_WIDTH
                    && c.0 as int == ShiftedCell(vx, vy, z).0 % MAP_WIDTH
                    && c.1 as int == ShiftedCell(vx, vy, z).1;
      assert c in CellTiles(vx, vy, z);
    }
  }

  lemma {:induction false} ViewRowSizeZoomedIn(x: int, vy: int, z: int, n: int)
    requires z >= TILE_ZOOM && n >= 0
    ensures |ViewRow(x, vy, z, n)| <= n
    decreases n
  {
    if n > 0 {
      ViewRowSizeZoomedIn(x, vy, z, n - 1);
    }
  }

  /** At zoom 9 or more each view tile needs at most one tile, so at most `width * height` in all. */
  lemma {:induction false} NeededSizeZoomedIn(x: int, y: int, z: int, width: int, height: int)
    requires z >= TILE_ZOOM && width >= 0 && height >= 0
    ensures |Needed(x, y, z, width, height)| <= width * height
    decreases height
  {
    if height > 0 {
      NeededSizeZoomedIn(x, y, z, width, height - 1);
      var previous := Needed(x, y, z, width, height - 1);
      var last := ViewRow(x, y + height - 1, z, width);
      ViewRowSizeZoomedIn(x, y + height - 1, z, width);
      assert Needed(x, y, z, width, height) == previous + last;
      assert |previous + last| <= |previous| + |last|;
      MulSucc(width, height - 1);
    }
  }

  lemma MulSucc(a: int, b: int)
    ensures a * b + a == a * (b + 1)
  {
  }

  lemma {:induction false} ViewRowEmpty(x: int, vy: int, z: int, n: int)
    requires n <= 0
    ensures ViewRow(x, vy, z, n) == {}
  {
  }

  /** An empty viewport needs no tiles. */
  lemma {:induction false} NeededEmpty(x: int, y: int, z: int, width: int, height: int)
    requires width <= 0 || height <= 0
    ensures Needed(x, y, z, width, height) == {}
    decreases height
  {
    if height > 0 {
      NeededEmpty(x, y, z, width, height - 1);
      ViewRowEmpty(x, y + height - 1, z, width);
    }
  }
}
