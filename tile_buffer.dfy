/**
 * `tile_buffer_from_journey_bitmap`: renders a `width` x `height` block of
 * view tiles at `(x, y)`, zoom `z`, into a `TileBuffer` that holds, for each
 * view tile in row-major order, the pixels the tile shader reports for it,
 * clipped to a `2^bufferSizePower`-pixel square.
 *
 * The tile shader (`TileShader2::get_pixels_coordinates`) is not part of
 * this model: it is a function parameter, called with the bitmap, the
 * wrapped view column, the view row, the zoom and the buffer size power.
 */
module TileBuffers {
  import opened Wrappers
  import opened Primitives

  /** A pixel position inside one tile. */
  type Pixel = (u16, u16)

  /** The tile shader: pixel positions, possibly outside the tile, for one view tile. */
  type Shader<!Tile> = (Bitmap<Tile>, int, int, int, int) -> seq<(int, int)>

  /** `TileBuffer`: the rendered pixels of each view tile of the block, row-major. */
  datatype TileBuffer = TileBuffer(
    x: int, y: int, z: int, width: int, height: int, bufferSizePower: int,
    tileData: seq<seq<Pixel>>)

  /** The rejections of map_renderer.rs:304-336, in the order they are tested. */
  datatype TileBufferError =
    | InvalidDimensions
    | DimensionsTooLarge
    | InvalidZoom
    | InvalidBufferSizePower
    | InvalidY

  /** The ranges the source accepts. */
  predicate ParametersValid(y: int, z: int, width: int, height: int, bufferSizePower: int) {
    && 0 < width <= 20 && 0 < height <= 20
    && 0 <= z <= 25
    && 6 <= bufferSizePower <= 11
    && 0 <= y < Pow2(z)
  }

  /**
   * The validation of map_renderer.rs:304-336: the first test that fails
   * names the error; no error exactly when every parameter is in range.
   */
  function CheckParameters(y: int, z: int, width: int, height: int, bufferSizePower: int): (r: Option<TileBufferError>)
    ensures r.None? <==> ParametersValid(y, z, width, height, bufferSizePower)
    ensures r == Some(InvalidDimensions) <==> width <= 0 || height <= 0
    ensures r == Some(DimensionsTooLarge) <==> 0 < width && 0 < height && (width > 20 || height > 20)
    ensures r == Some(InvalidZoom) <==> 0 < width <= 20 && 0 < height <= 20 && !(0 <= z <= 25)
    ensures r == Some(InvalidBufferSizePower) <==>
      0 < width <= 20 && 0 < height <= 20 && 0 <= z <= 25 && !(6 <= bufferSizePower <= 11)
  {
    if width <= 0 || height <= 0 then Some(InvalidDimensions)
    else if width > 20 || height > 20 then Some(DimensionsTooLarge)
    else if !(0 <= z <= 25) then Some(InvalidZoom)
    else if !(6 <= bufferSizePower <= 11) then Some(InvalidBufferSizePower)
    else if y < 0 || y >= Pow2(z) then Some(InvalidY)
    else None
  }

  predicate InBounds(p: (int, int), bound: int) {
    0 <= p.0 < bound && 0 <= p.1 < bound
  }

  /**
   * The pixels of `pixels` inside the `bound` x `bound` square, in their
   * order, duplicates kept, as `u16` pairs.
   */
  function InBoundsPixels(pixels: seq<(int, int)>, bound: int): (r: seq<Pixel>)
    requires bound <= 0x1_0000
    ensures |r| <= |pixels|
    ensures forall k :: 0 <= k < |r| ==> r[k].0 as int < bound && r[k].1 as int < bound
    decreases |pixels|
  {
    if |pixels| == 0 then []
    else
      var p := pixels[|pixels| - 1];
      InBoundsPixels(pixels[..|pixels| - 1], bound)
        + (if InBounds(p, bound) then [(p.0 as u16, p.1 as u16)] else [])
  }

  /** A pixel is kept exactly when it is one of the input pixels and lies in the square. */
  lemma {:induction false} InBoundsPixelsMember(pixels: seq<(int, int)>, bound: int, q: Pixel)
    requires bound <= 0x1_0000
    ensures q in InBoundsPixels(pixels, bound) <==>
      (q.0 as int, q.1 as int) in pixels && InBounds((q.0 as int, q.1 as int), bound)
    decreases |pixels|
  {
    if |pixels| > 0 {
      var init, p := pixels[..|pixels| - 1], pixels[|pixels| - 1];
      assert pixels == init + [p];
      InBoundsPixelsMember(init, bound, q);
    }
  }

  /** Every input pixel is kept when all of them lie in the square. */
  lemma {:induction false} InBoundsPixelsAllInside(pixels: seq<(int, int)>, bound: int)
    requires bound <= 0x1_0000
    requires forall k :: 0 <= k < |pixels| ==> InBounds(pixels[k], bound)
    ensures |InBoundsPixels(pixels, bound)| == |pixels|
    ensures forall k :: 0 <= k < |pixels| ==>
      InBoundsPixels(pixels, bound)[k].0 as int == pixels[k].0 && InBoundsPixels(pixels, bound)[k].1 as int == pixels[k].1
    decreases |pixels|
  {
    if |pixels| > 0 {
      InBoundsPixelsAllInside(pixels[..|pixels| - 1], bound);
    }
  }

  /**
   * The pixels of the view tile `col` columns and `row` rows into the block:
   * the shader is asked for the view column wrapped into `0 .. 2^z`.
   */
  function CellPixels<Tile>(bitmap: Bitmap<Tile>, shader: Shader<Tile>,
                            x: int, y: int, z: nat, bufferSizePower: nat, col: int, row: int): seq<Pixel>
    requires bufferSizePower <= 11
  {
    Pow2BufferBound(bufferSizePower);
    InBoundsPixels(shader(bitmap, (x + col) % Pow2(z), y + row, z, bufferSizePower), Pow2(bufferSizePower))
  }

  /** The pixels at index `i` of a row-major buffer `width` view tiles wide. */
  function CellAt<Tile>(bitmap: Bitmap<Tile>, shader: Shader<Tile>,
                        x: int, y: int, z: nat, width: int, bufferSizePower: nat, i: nat): seq<Pixel>
    requires width > 0 && bufferSizePower <= 11
  {
    CellPixels(bitmap, shader, x, y, z, bufferSizePower, i % width, i / width)
  }

  /** What `tile_buffer_from_journey_bitmap` returns. */
  function ExpectedTileBuffer<Tile>(bitmap: Bitmap<Tile>, shader: Shader<Tile>,
                                    x: int, y: int, z: int, width: int, height: int, bufferSizePower: int)
    : Result<TileBuffer, TileBufferError>
  {
    match CheckParameters(y, z, width, height, bufferSizePower)
    case Some(e) => Err(e)
    case None =>
      Ok(TileBuffer(x, y, z, width, height, bufferSizePower,
                    seq(width * height, i requires 0 <= i < width * height =>
                          CellAt(bitmap, shader, x, y, z, width, bufferSizePower, i))))
  }

  /** A buffer holding `CellAt` at every index is the one an accepted call returns. */
  lemma ExpectedTileBufferOk<Tile>(bitmap: Bitmap<Tile>, shader: Shader<Tile>,
                                   x: int, y: int, z: int, width: int, height: int, bufferSizePower: int,
                                   tileData: seq<seq<Pixel>>)
    requires ParametersValid(y, z, width, height, bufferSizePower)
    requires |tileData| == width * height
    requires forall i :: 0 <= i < |tileData| ==> tileData[i] == CellAt(bitmap, shader, x, y, z, width, bufferSizePower, i)
    ensures ExpectedTileBuffer(bitmap, shader, x, y, z, width, height, bufferSizePower)
         == Ok(TileBuffer(x, y, z, width, height, bufferSizePower, tileData))
  {
    var e := ExpectedTileBuffer(bitmap, shader, x, y, z, width, height, bufferSizePower);
    assert e.Ok?;
    forall i | 0 <= i < |tileData|
      ensures e.value.tileData[i] == tileData[i]
    {
    }
    assert e.value.tileData == tileData;
  }

  /** Position `row * width + col` of a row-major block is column `col` of row `row`. */
  lemma RowMajorIndex(width: int, col: int, row: int)
    requires 0 <= col < width && 0 <= row
    ensures (row * width + col) % width == col
    ensures (row * width + col) / width == row
  {
    ModOfDecomposition(row * width + col, width, row, col);
  }

  /** Every view tile of the block has an index inside the buffer. */
  lemma RowMajorInRange(width: int, height: int, col: int, row: int)
    requires 0 <= col < width && 0 <= row < height
    ensures 0 <= row * width + col < width * height
    ensures row * width + width <= width * height
    ensures (row + 1) * width == row * width + width
  {
    MulAtLeast(height - row, width);
    assert (height - row) * width == height * width - row * width;
    assert row * width >= 0;
  }

  /** Every index of the buffer is the view tile of some column and row of the block. */
  lemma IndexInBlock(width: int, height: int, i: int)
    requires width > 0 && 0 <= i < width * height
    ensures 0 <= i % width < width && 0 <= i / width < height
  {
  }

  lemma Pow2BufferBound(bufferSizePower: nat)
    requires bufferSizePower <= 11
    ensures Pow2(bufferSizePower) <= 2048
  {
    Pow2Monotone(bufferSizePower, 11);
  }

  /**
   * A rejected call returns the first failing check's error; an accepted one
   * returns a buffer that echoes the parameters and has one pixel list per
   * view tile, whose pixels all lie inside the `2^bufferSizePower` square.
   */
  lemma ExpectedTileBufferShape<Tile>(bitmap: Bitmap<Tile>, shader: Shader<Tile>,
                                      x: int, y: int, z: int, width: int, height: int, bufferSizePower: int)
    ensures ExpectedTileBuffer(bitmap, shader, x, y, z, width, height, bufferSizePower).Err? <==>
      !ParametersValid(y, z, width, height, bufferSizePower)
    ensures ExpectedTileBuffer(bitmap, shader, x, y, z, width, height, bufferSizePower).Err? ==>
      Some(ExpectedTileBuffer(bitmap, shader, x, y, z, width, height, bufferSizePower).error)
        == CheckParameters(y, z, width, height, bufferSizePower)
    ensures ExpectedTileBuffer(bitmap, shader, x, y, z, width, height, bufferSizePower).Ok? ==>
      var b := ExpectedTileBuffer(bitmap, shader, x, y, z, width, height, bufferSizePower).value;
      && b.x == x && b.y == y && b.z == z && b.width == width && b.height == height
      && b.bufferSizePower == bufferSizePower
      && |b.tileData| == width * height <= 400
      && (forall i, k :: 0 <= i < |b.tileData| && 0 <= k < |b.tileData[i]| ==>
           b.tileData[i][k].0 < 2048 && b.tileData[i][k].1 < 2048)
      && 0 <= bufferSizePower
      && (forall i, k :: 0 <= i < |b.tileData| && 0 <= k < |b.tileData[i]| ==>
           b.tileData[i][k].0 as int < Pow2(bufferSizePower) && b.tileData[i][k].1 as int < Pow2(bufferSizePower))
  {
    if ParametersValid(y, z, width, height, bufferSizePower) {
      Pow2BufferBound(bufferSizePower);
      CellCountBound(width, height);
      var b := ExpectedTileBuffer(bitmap, shader, x, y, z, width, height, bufferSizePower).value;
      forall i, k | 0 <= i < |b.tileData| && 0 <= k < |b.tileData[i]|
        ensures b.tileData[i][k].0 as int < Pow2(bufferSizePower) && b.tileData[i][k].1 as int < Pow2(bufferSizePower)
        ensures b.tileData[i][k].0 < 2048 && b.tileData[i][k].1 < 2048
      {
        assert b.tileData[i] == CellAt(bitmap, shader, x, y, z, width, bufferSizePower, i);
      }
    }
  }

  lemma CellCountBound(width: int, height: int)
    requires 0 < width <= 20 && 0 < height <= 20
    ensures width * height <= 400
  {
    assert width * height <= 20 * height;
  }

  /**
   * The pixels of the view tile at column `col`, row `row` of the block are
   * at index `row * width + col`, and are the shader's pixels for that view
   * tile, clipped to the tile.
   */
  lemma ExpectedTileBufferCell<Tile>(bitmap: Bitmap<Tile>, shader: Shader<Tile>,
                                     x: int, y: int, z: int, width: int, height: int, bufferSizePower: int,
                                     col: int, row: int)
    requires ParametersValid(y, z, width, height, bufferSizePower)
    requires 0 <= col < width && 0 <= row < height
    ensures var r := ExpectedTileBuffer(bitmap, shader, x, y, z, width, height, bufferSizePower);
      && r.Ok? && row * width + col < |r.value.tileData|
      && r.value.tileData[row * width + col]
           == CellPixels(bitmap, shader, x, y, z, bufferSizePower, col, row)
  {
    RowMajorIndex(width, col, row);
    RowMajorInRange(width, height, col, row);
  }

  /**
   * Columns wrap around the antimeridian: moving the block a whole turn of
   * `2^z` view tiles east renders the same pixels.
   */
  lemma ExpectedTileBufferWraps<Tile>(bitmap: Bitmap<Tile>, shader: Shader<Tile>,
                                      x: int, y: int, z: int, width: int, height: int, bufferSizePower: int)
    requires ParametersValid(y, z, width, height, bufferSizePower)
    ensures ExpectedTileBuffer(bitmap, shader, x + Pow2(z), y, z, width, height, bufferSizePower).value.tileData
         == ExpectedTileBuffer(bitmap, shader, x, y, z, width, height, bufferSizePower).value.tileData
  {
    var m := Pow2(z);
    var b := ExpectedTileBuffer(bitmap, shader, x, y, z, width, height, bufferSizePower).value.tileData;
    assert |b| == width * height;
    forall i | 0 <= i < |b|
      ensures b[i] == CellAt(bitmap, shader, x + m, y, z, width, bufferSizePower, i)
    {
      assert b[i] == CellAt(bitmap, shader, x, y, z, width, bufferSizePower, i);
      CellAtWraps(bitmap, shader, x, y, z, width, bufferSizePower, i);
    }
    ExpectedTileBufferOk(bitmap, shader, x + m, y, z, width, height, bufferSizePower, b);
  }

  lemma CellAtWraps<Tile>(bitmap: Bitmap<Tile>, shader: Shader<Tile>,
                          x: int, y: int, z: nat, width: int, bufferSizePower: nat, i: nat)
    requires width > 0 && bufferSizePower <= 11
    ensures CellAt(bitmap, shader, x + Pow2(z), y, z, width, bufferSizePower, i)
         == CellAt(bitmap, shader, x, y, z, width, bufferSizePower, i)
  {
    WrapShift(x + i % width, Pow2(z));
    assert x + Pow2(z) + i % width == (x + i % width) + Pow2(z);
  }

  /** Adding a whole turn does not change the wrapped column. */
  lemma WrapShift(a: int, m: int)
    requires m > 0
    ensures (a + m) % m == a % m
  {
    ModOfDecomposition(a, m, a / m, a % m);
    ModOfDecomposition(a + m, m, a / m + 1, a % m);
  }

  /** The pixel loop of map_renderer.rs:382-392: pushes the pixels inside the tile onto `cell`. */
  method PushInBounds(cell: seq<Pixel>, pixels: seq<(int, int)>, bufferSizePower: nat)
    returns (cell': seq<Pixel>)
    requires bufferSizePower <= 11
    ensures Pow2(bufferSizePower) <= 2048
    ensures cell' == cell + InBoundsPixels(pixels, Pow2(bufferSizePower))
  {
    var bound := Pow2(bufferSizePower);
    Pow2BufferBound(bufferSizePower);
    cell' := cell;
    var k := 0;
    while k < |pixels|
      invariant 0 <= k <= |pixels|
      invariant cell' == cell + InBoundsPixels(pixels[..k], bound)
    {
      var (px, py) := pixels[k];
      if px >= 0 && px < bound && py >= 0 && py < bound {
        cell' := cell' + [(px as u16, py as u16)];
      }
      assert pixels[..k + 1][..k] == pixels[..k];
      k := k + 1;
    }
    assert pixels[..k] == pixels;
  }

  /**
   * The body of the tile loops of map_renderer.rs:353-392: asks the shader
   * for view tile `(tileX, tileY)`, its column wrapped into `0 .. 2^z`, and
   * pushes the pixels inside the tile onto the tile's list.
   */
  method RenderTile<Tile>(bitmap: Bitmap<Tile>, shader: Shader<Tile>, cell: seq<Pixel>,
                          tileX: int, tileY: int, z: nat, bufferSizePower: nat)
    returns (cell': seq<Pixel>)
    requires bufferSizePower <= 11
    ensures Pow2(bufferSizePower) <= 2048
    ensures cell' == cell + InBoundsPixels(shader(bitmap, tileX % Pow2(z), tileY, z, bufferSizePower), Pow2(bufferSizePower))
  {
    var zoomCoefficient := Pow2(z);
    var tileXRounded := RustWrap(tileX, zoomCoefficient);
    RustWrapIsEuclidean(tileX, zoomCoefficient);
    var pixels := shader(bitmap, tileXRounded, tileY, z, bufferSizePower);
    cell' := PushInBounds(cell, pixels, bufferSizePower);
  }

  /**
   * One pass of the `tile_x` loop of map_renderer.rs:351-393: fills the
   * pixel lists of view row `tileY`, which start at index `rowStart`.
   */
  method RenderRow<Tile>(bitmap: Bitmap<Tile>, shader: Shader<Tile>, tileData: seq<seq<Pixel>>,
                         x: int, y: int, z: nat, width: int, height: int, bufferSizePower: nat,
                         tileY: int, ghost rowStart: int)
    returns (tileData': seq<seq<Pixel>>)
    requires 0 < width && y <= tileY < y + height && bufferSizePower <= 11
    requires rowStart == (tileY - y) * width && rowStart + width <= |tileData|
    requires forall i :: 0 <= i < |tileData| ==>
      tileData[i] == if i < rowStart then CellAt(bitmap, shader, x, y, z, width, bufferSizePower, i) else []
    ensures |tileData'| == |tileData|
    ensures forall i :: 0 <= i < |tileData'| ==>
      tileData'[i] == if i < rowStart + width then CellAt(bitmap, shader, x, y, z, width, bufferSizePower, i) else []
  {
    tileData' := tileData;
    var tileX := x;
    while tileX < x + width
      invariant x <= tileX <= x + width
      invariant |tileData'| == |tileData|
      invariant forall i :: 0 <= i < |tileData'| ==>
        tileData'[i] == if i < rowStart + (tileX - x) then CellAt(bitmap, shader, x, y, z, width, bufferSizePower, i) else []
    {
      var idx := (tileY - y) * width + (tileX - x);
      RowMajorIndex(width, tileX - x, tileY - y);
      var tilePixels := RenderTile(bitmap, shader, tileData'[idx], tileX, tileY, z, bufferSizePower);
      assert tilePixels == CellAt(bitmap, shader, x, y, z, width, bufferSizePower, idx);
      tileData' := tileData'[idx := tilePixels];
      tileX := tileX + 1;
    }
  }

  /**
   * The tile loops of `tile_buffer_from_journey_bitmap` (map_renderer.rs:346-394):
   * fills each view tile's pixel list, visiting view rows, then columns.
   */
  method RenderTiles<Tile>(bitmap: Bitmap<Tile>, shader: Shader<Tile>,
                           x: int, y: int, z: int, width: int, height: int, bufferSizePower: int)
    returns (tileData: seq<seq<Pixel>>)
    requires 0 < width <= 20 && 0 < height <= 20 && 0 <= z <= 25 && 6 <= bufferSizePower <= 11
    ensures |tileData| == width * height
    ensures forall i :: 0 <= i < |tileData| ==> tileData[i] == CellAt(bitmap, shader, x, y, z, width, bufferSizePower, i)
  {
    var cellCount := width * height;
    tileData := seq(cellCount, _ => []);
    ghost var done := 0;
    var tileY := y;
    while tileY < y + height
      invariant y <= tileY <= y + height
      invariant done == (tileY - y) * width
      invariant |tileData| == cellCount
      invariant forall i :: 0 <= i < cellCount ==> tileData[i] == if i < done then CellAt(bitmap, shader, x, y, z, width, bufferSizePower, i) else []
    {
      RowMajorInRange(width, height, 0, tileY - y);
      tileData := RenderRow(bitmap, shader, tileData, x, y, z, width, height, bufferSizePower, tileY, done);
      done := done + width;
      tileY := tileY + 1;
    }
    assert done == cellCount;
  }

  /**
   * `tile_buffer_from_journey_bitmap` (map_renderer.rs:294-397). The range
   * `x .. x + width` must not overflow an i64. `calculate_tile_index` is
   * taken to be the row-major index `(tileY - y) * width + (tileX - x)`;
   * with it the source's index bounds check cannot fail.
   */
  method TileBufferFromJourneyBitmap<Tile>(bitmap: Bitmap<Tile>, shader: Shader<Tile>,
                                           x: int, y: int, z: int, width: int, height: int, bufferSizePower: int)
    returns (r: Result<TileBuffer, TileBufferError>)
    requires CheckParameters(y, z, width, height, bufferSizePower).None? ==> x + width <= I64_MAX
    ensures r == ExpectedTileBuffer(bitmap, shader, x, y, z, width, height, bufferSizePower)
  {
    if width <= 0 || height <= 0 {
      return Err(InvalidDimensions);
    }
    if width > 20 || height > 20 {
      return Err(DimensionsTooLarge);
    }
    if !(0 <= z <= 25) {
      return Err(InvalidZoom);
    }
    if !(6 <= bufferSizePower <= 11) {
      return Err(InvalidBufferSizePower);
    }
    var zoomCoefficient := Pow2(z);
    if y < 0 || y >= zoomCoefficient {
      return Err(InvalidY);
    }

    var tileData := RenderTiles(bitmap, shader, x, y, z, width, height, bufferSizePower);
    ExpectedTileBufferOk(bitmap, shader, x, y, z, width, height, bufferSizePower, tileData);
    return Ok(TileBuffer(x, y, z, width, height, bufferSizePower, tileData));
  }
}
