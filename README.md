# MemoLanes map renderer: lazy tile materialisation

This is a Dafny model of the renderer core of MemoLanes
(`app/rust/src/renderer/map_renderer.rs`). In the model the renderer holds a
journey bitmap, a map from zoom-9 tile coordinates `(u16, u16)` to tiles. It
may also be given a `LazyTileSource`: a serialized bitmap blob plus an index
from coordinate to the byte range of that tile's compressed payload.

A tile of the source is decoded only when it is first needed. That happens
in two cases:

- a viewport asks for it (`get_tile_buffer` pre-loads the tiles that
  `compute_needed_bitmap_tiles` names);
- the whole bitmap is asked for (`ensure_all_tiles_loaded`).

A decoded tile is merged into any live tile already at its coordinate. It
is inserted only where there is none. Every coordinate looked up is
remembered in `loaded_tiles`, even when the source has no tile there. The
renderer also keeps a wrapping `u64` version counter. Clients see it as
lowercase hexadecimal and compare against it with `has_changed_since`.

Modules, one per part of the source:

- `Primitives` (`primitives.dfy`): the fixed-width integers (`u16`, `u64`,
  the `i64` range), `1 << k`, the arithmetic shift `>>`, Rust's truncating
  `%`, the wrap idiom `((a % m) + m) % m` and `wrapping_add(1)`.
- `Wrappers` (`wrappers.dfy`): `Option` and `Result`.
- `LazyTiles` (`lazy_tile_source.dfy`): `LazyTileSource`. Its fields never
  change, so they are `const`. The invariant `Valid()` says every indexed
  byte range lies inside the blob, so the slice at line 31 cannot panic.
- `NeededTiles` (`needed_tiles.dfy`): `compute_needed_bitmap_tiles`. The
  nested loops are a method. It is proved equal to `Needed`, a union over
  the index ranges, and the stated properties are lemmas about `Needed`.
- `TileBuffers` (`tile_buffer.dfy`): `tile_buffer_from_journey_bitmap`. The
  range checks become the error datatype `TileBufferError`. The buffer has
  one pixel list per view tile, and pixels outside the tile are filtered
  out. The loops are methods proved equal to the function
  `ExpectedTileBuffer`.
- `VersionTags` (`version_tags.dfy`): these functions mirror the Rust calls:
  - `format!("{:x}")`;
  - `trim_matches('"')`;
  - `u64::from_str_radix(_, 16)`;
  - `has_changed_since`.
- `MapRendering` (`map_renderer.dfy`): the class `MapRenderer`, whose
  methods mutate its fields. The cache behaviour is specified on values:
  - `CacheState` is the pair (bitmap, loaded set);
  - `EnsureLoaded` is one `ensure_tile_loaded`;
  - `EnsureAll` loads a set of coordinates in an arbitrary order.

  The methods are proved against these functions, and lemmas state the
  cache's promises about them.

Collaborators whose code is not part of this model are parameters or
`const` function fields:

- `Tile::merge_from` is `merge`; `merge(existing, finalized)` is the tile
  `existing.merge_from(&finalized)` leaves.
- `journey_data::deserialize_tile` is `deserializeTile`.
- `journey_data::parse_tile_index` is `parseTileIndex`.
- `TileShader2::get_pixels_coordinates` is the `shader` function.

## Model

| member | source | states |
|---|---|---|
| `LazyTiles.LazyTileSource.FromSerializedBitmap` | app/rust/src/renderer/map_renderer.rs:20-26 | A failed index parse is passed on as the error. Otherwise the result is a fresh valid source that keeps the blob unchanged, with the parsed index. |
| `LazyTiles.LazyTileSource.DecompressTile` | app/rust/src/renderer/map_renderer.rs:29-33 | None exactly when the coordinate is not indexed or its payload does not deserialize. Otherwise the result is the tile that exactly `raw_data[offset..offset+length]` decodes to. |
| `LazyTiles.LazyTileSource.TileKeys` | app/rust/src/renderer/map_renderer.rs:35-37 | No coordinate outside the indexed keys yields a tile. |
| `MapRendering.EnsureLoadedFrame` | app/rust/src/renderer/map_renderer.rs:185-190 | Afterwards the coordinate is loaded whatever the source holds. An already loaded coordinate leaves the state unchanged. No other coordinate's tile changes, and no other key appears. |
| `MapRendering.EnsureLoadedMerges` | app/rust/src/renderer/map_renderer.rs:191-203 | A decoded tile is merged into a live tile, never put in its place. Without a live tile it is inserted as decoded. A None decode leaves the bitmap unchanged. |
| `MapRendering.EnsureLoadedIdempotent` | app/rust/src/renderer/map_renderer.rs:185-188 | A second load of the same coordinate changes nothing. |
| `MapRendering.LookupEnsureAll` | app/rust/src/renderer/map_renderer.rs:210-217 | After loading a set in any order, each coordinate holds its live tile combined with its decoded tile if it was not yet loaded, and otherwise its old tile. |
| `MapRendering.EnsureAllLoaded` | app/rust/src/renderer/map_renderer.rs:210-217 | After loading a set, the loaded set is the old one plus the set. |
| `MapRendering.EnsureAllFrame` | app/rust/src/renderer/map_renderer.rs:210-217 | After loading a set: every coordinate of it is loaded; coordinates outside the newly loaded ones keep their tiles; the bitmap's keys become the old keys plus the newly loaded coordinates whose tiles decode. |
| `MapRendering.EnsureAllStep` | app/rust/src/renderer/map_renderer.rs:213-215 | Loading one more coordinate after a set is loading the set with it, in any order. |
| `MapRendering.EnsureAllUnion` | app/rust/src/renderer/map_renderer.rs:210-217 | Loading `a` and then `b` gives the same state as loading `a + b`. |
| `MapRendering.EnsureAllIdempotent` | app/rust/src/renderer/map_renderer.rs:210-217 | Loading the same set twice is loading it once. |
| `MapRendering.EnsureAllNone` | app/rust/src/renderer/map_renderer.rs:210-217 | Loading no coordinate changes nothing. |
| `MapRendering.EagerDecode` | app/rust/tests/map_renderer.rs:70-73 | The eager decode fails exactly when some indexed payload does not decode. When it succeeds, its keys are exactly the indexed keys. |
| `MapRendering.FullLoadMatchesEager` | app/rust/src/renderer/map_renderer.rs:210-217 | Loading every indexed key into a state with nothing loaded gives the live tiles with the decodable indexed tiles merged in. When the eager decode succeeds, these are its tiles. |
| `MapRendering.ViewportThenFullLoad` | app/rust/tests/map_renderer.rs:109-158 | The integration test's sequence, from the state `ReplaceLazy` leaves with an empty ongoing bitmap. After a viewport pre-load, it holds only needed tiles, each equal to the decodable indexed tile. After the full load, it holds exactly the decodable indexed tiles, which is the eager bitmap when the eager decode succeeds. |
| `MapRendering.LiveViewportThenFullLoad` | app/rust/src/renderer/map_renderer.rs:112-124 | From `replace_lazy(source, live)`, a viewport pre-load of any set and then `ensure_all_tiles_loaded` give the live tiles with the decodable indexed tiles merged in, whatever the viewport. When the eager decode succeeds, these are its tiles. |
| `MapRendering.LazyAndEagerTileBuffersAgree` | app/rust/tests/map_renderer.rs:109-142 | A lazy renderer's tile buffer for a viewport equals the eager renderer's, given a shader that reads only the needed tiles. |
| `MapRendering.PreloadTouchesOnlyNeeded` | app/rust/src/renderer/map_renderer.rs:228-234 | Every newly loaded coordinate and every changed bitmap entry of a pre-load lies in the needed set, and new keys are on the 512 x 512 grid. |
| `MapRendering.MapRenderer.constructor` | app/rust/src/renderer/map_renderer.rs:51-62 | The given bitmap, no lazy source, nothing loaded, an empty area cache, version 0, no cached area. |
| `MapRendering.MapRenderer.Reset` | app/rust/src/renderer/map_renderer.rs:132-135 | The version moves on by a wrapping +1 and the cached area is dropped. Nothing else changes. |
| `MapRendering.MapRenderer.Update` | app/rust/src/renderer/map_renderer.rs:74-98 | The bitmap is the callback's result, and the reported tile positions leave the area cache, then a reset. The source and the loaded set stay. |
| `MapRendering.MapRenderer.Replace` | app/rust/src/renderer/map_renderer.rs:100-108 | The new bitmap, no source, nothing loaded, the area cache cleared, then a reset. |
| `MapRendering.MapRenderer.ReplaceLazy` | app/rust/src/renderer/map_renderer.rs:112-124 | The ongoing bitmap and the source, nothing loaded, the area cache cleared, then a reset. Given an empty ongoing bitmap, the renderer holds 0 tiles (app/rust/tests/map_renderer.rs:102-107). |
| `MapRendering.MapRenderer.DropLazySource` | app/rust/src/renderer/map_renderer.rs:127-130 | No source and nothing loaded. The bitmap, the version and the area cache stay. |
| `MapRendering.MapRenderer.GetVersionString` | app/rust/src/renderer/map_renderer.rs:141-143 | The string parses back to the current version, bare or in quotes. |
| `MapRendering.MapRenderer.HasChangedSince` | app/rust/src/renderer/map_renderer.rs:151-156 | None exactly when the client's string parses to the current version. Otherwise the result is the current version string. |
| `MapRendering.MapRenderer.GetLatestBitmapIfChanged` | app/rust/src/renderer/map_renderer.rs:159-167 | None exactly when `has_changed_since` is None. Otherwise the result is the bitmap with the version string. |
| `MapRendering.MapRenderer.EnsureTileLoaded` | app/rust/src/renderer/map_renderer.rs:185-205 | The new state is `EnsureLoaded` of the old one. |
| `MapRendering.MapRenderer.EnsureTilesLoaded` | app/rust/src/renderer/map_renderer.rs:213-215 | The loop over a key set leaves `EnsureAll` of the old state. |
| `MapRendering.MapRenderer.EnsureAllTilesLoaded` | app/rust/src/renderer/map_renderer.rs:210-217 | With a source, every indexed key is loaded (`EnsureAll`). Without one, nothing changes. |
| `MapRendering.MapRenderer.GetTileBuffer` | app/rust/src/renderer/map_renderer.rs:219-245 | It pre-loads only with a source, and then exactly the needed set. It returns the buffer rendered from the bitmap as it is after the pre-load. |
| `NeededTiles.ComputeNeededBitmapTiles` | app/rust/src/renderer/map_renderer.rs:249-291 | The loops build exactly `Needed` of the viewport. |
| `NeededTiles.AddTileRow` | app/rust/src/renderer/map_renderer.rs:279-284 | The row loop adds exactly the wrapped on-grid tiles of one bitmap row. |
| `NeededTiles.AddTileBlock` | app/rust/src/renderer/map_renderer.rs:278-285 | The block loops add exactly the tiles of the `scale` x `scale` block. |
| `NeededTiles.AddViewTile` | app/rust/src/renderer/map_renderer.rs:262-286 | The loop body adds exactly the tiles under one view tile, in both zoom branches. |
| `NeededTiles.NeededMember` | app/rust/src/renderer/map_renderer.rs:260-288 | A tile is needed exactly when it lies under some view tile of the viewport. |
| `NeededTiles.NeededInGrid` | app/rust/src/renderer/map_renderer.rs:269-282 | Every needed tile has both coordinates in `[0, 512)`. |
| `NeededTiles.NeededZoomedIn` | app/rust/src/renderer/map_renderer.rs:265-272 | At zoom 9 or more, a tile is needed exactly when a view tile shifted right by `z - 9` lands on it. The column is taken modulo 512. The row is used as it is, and only if it is in `[0, 512)`. |
| `NeededTiles.NeededSizeZoomedIn` | app/rust/src/renderer/map_renderer.rs:265-272 | At zoom 9 or more, at most `width * height` tiles are needed. |
| `NeededTiles.NeededEmpty` | app/rust/src/renderer/map_renderer.rs:260-261 | A viewport with `width <= 0` or `height <= 0` needs no tiles. |
| `TileBuffers.CheckParameters` | app/rust/src/renderer/map_renderer.rs:304-336 | No error exactly when every parameter is in range. Each error is named exactly when its test is the first that fails. |
| `TileBuffers.InBoundsPixelsMember` | app/rust/src/renderer/map_renderer.rs:382-391 | A pixel is kept exactly when the shader reported it inside the `2^buffer_size_power` square. |
| `TileBuffers.InBoundsPixelsAllInside` | app/rust/src/renderer/map_renderer.rs:382-391 | When every reported pixel is inside the square, the filter keeps all of them, in order, with their values unchanged. |
| `TileBuffers.PushInBounds` | app/rust/src/renderer/map_renderer.rs:382-392 | The pixel loop appends exactly the in-bounds pixels, in order. |
| `TileBuffers.RenderTile` | app/rust/src/renderer/map_renderer.rs:353-392 | One view tile asks the shader for its column wrapped into `[0, 2^z)` and appends the pixels that lie inside the tile. |
| `TileBuffers.RenderRow` | app/rust/src/renderer/map_renderer.rs:351-393 | One `tile_x` pass fills exactly the pixel lists of its view row, at their row-major indices. |
| `TileBuffers.RenderTiles` | app/rust/src/renderer/map_renderer.rs:346-394 | The loops fill `width * height` pixel lists. Each list holds its view tile's in-bounds pixels. |
| `TileBuffers.TileBufferFromJourneyBitmap` | app/rust/src/renderer/map_renderer.rs:294-397 | The result is `ExpectedTileBuffer`: the first failing check's error, or the filled buffer. |
| `TileBuffers.ExpectedTileBufferShape` | app/rust/src/renderer/map_renderer.rs:304-347 | It is an error exactly when some check fails. On success the buffer echoes the parameters and has `width * height <= 400` slots, and every pixel lies in `[0, 2^buffer_size_power)`, so below 2048. |
| `TileBuffers.ExpectedTileBufferCell` | app/rust/src/renderer/map_renderer.rs:350-392 | Slot `row * width + col` holds the in-bounds pixels of view tile `(x + col, y + row)`. |
| `TileBuffers.ExpectedTileBufferWraps` | app/rust/src/renderer/map_renderer.rs:352-354 | Moving the block `2^z` view tiles east renders the same pixels. |
| `VersionTags.ChangedSince` | app/rust/src/renderer/map_renderer.rs:151-156 | None exactly when the client's string parses to the version. Otherwise the result is the version string. |
| `VersionTags.ParseVersionStringRoundTrip` | app/rust/src/renderer/map_renderer.rs:141-149 | The version string parses back to the version, bare or quoted. |
| `VersionTags.VersionStringInjective` | app/rust/src/renderer/map_renderer.rs:141-143 | Distinct versions have distinct version strings. |
| `VersionTags.EchoedVersionIsUnchanged` | app/rust/src/renderer/map_renderer.rs:151-156 | A client that echoes the current version string, bare or quoted, is told nothing changed. |
| `VersionTags.DigitsValueOfToHex` | app/rust/src/renderer/map_renderer.rs:142-148 | Reading back the digits `{:x}` prints gives the number. |
| `VersionTags.ToHex` | app/rust/src/renderer/map_renderer.rs:142 | The output is non-empty lowercase hexadecimal with no leading zero, and exactly "0" for zero. |
| `VersionTags.ParseVersionString` | app/rust/src/renderer/map_renderer.rs:145-149 | The quotes at both ends are trimmed, then the rest is read in radix 16. None when nothing or only a sign is left, or when a non-digit follows the optional '+'. A result is the value of the digits. |
| `VersionTags.FromStrRadix16` | app/rust/src/renderer/map_renderer.rs:148 | `u64::from_str_radix(_, 16).ok()`. None on the empty string, a lone '+', or a non-digit after the optional '+'. Otherwise a result exactly when the digits' value is below 2^64, and then it is that value. |
| `VersionTags.DigitsValue` | app/rust/src/renderer/map_renderer.rs:148 | A run of characters has a radix-16 value exactly when each is a digit of either letter case. |
| `VersionTags.SignedVersionStringParses` | app/rust/src/renderer/map_renderer.rs:145-149 | A version string with a leading '+' also parses to the version. |
| `VersionTags.TrimLeadingQuotesShape` | app/rust/src/renderer/map_renderer.rs:147 | Trimming the leading quotes leaves a suffix that does not start with a quote, and everything cut off is quotes. |
| `VersionTags.TrimTrailingQuotesShape` | app/rust/src/renderer/map_renderer.rs:147 | Trimming the trailing quotes leaves a prefix that does not end with a quote, and everything cut off is quotes. |
| `VersionTags.TrimQuotesShape` | app/rust/src/renderer/map_renderer.rs:147 | `trim_matches('"')` leaves a middle slice that neither starts nor ends with a quote, and everything around it is quotes. |
| `VersionTags.TrimQuotesAround` | app/rust/src/renderer/map_renderer.rs:147 | `trim_matches('"')` strips every quote at both ends, and only those. |
| `Primitives.WrappingIncrement` | app/rust/src/renderer/map_renderer.rs:133 | `wrapping_add(1)` adds one, except that `u64::MAX` wraps to 0. |
| `Primitives.RustWrapIsEuclidean` | app/rust/src/renderer/map_renderer.rs:269 | The idiom `((a % m) + m) % m` with Rust's truncating `%` is the Euclidean remainder, in `[0, m)`. |

## Left out

- I/O, external code and floating point:
  - `Tile::merge_from`, `deserialize_tile`, `parse_tile_index` and
    `TileShader2::get_pixels_coordinates` are not part of this model. Their
    code is not shown, so they are parameters or `const` function fields.
    Nothing is assumed about `merge_from` or `deserialize_tile`. The two
    assumptions about the others are listed below.
  - zstd decompression is inside `deserialize_tile`.
  - `get_current_area`, `journey_area_utils` and the `f64` values of
    `tile_area_cache` are floating-point area computation. The area cache
    is only its key set, and `current_area` is an optional number that
    `reset` clears.
- Methods left out or simplified:
  - `peek_latest_bitmap` and `get_current_version` are field reads.
  - `prepare_journey_bitmap_for_rendering` and `prepare_tiles_for_rendering`
    are empty placeholders in the source, so the bitmap is stored as given.
  - `MapRenderer.Update`: the callback is reduced to a function. It returns
    the new bitmap and the positions it reported, and cannot capture or
    mutate anything else.
- Integer-width limits:
  - The model's integers are unbounded. `MapRenderer.GetTileBuffer` and
    `NeededTiles.ComputeNeededBitmapTiles` require that the source's
    arithmetic neither overflows nor wraps (`ArgumentsFit`, and
    `x + width <= i64::MAX`). The `i16` `z - 9` must fit. When the
    viewport is not empty, this also excludes very negative zooms, which
    make `1i64 << -zoom_diff` overflow, and very large zooms, whose shift
    amount `zoom_diff` in `view_x >> zoom_diff` is out of range. An empty
    viewport runs no loop body, so any `i16` zoom is allowed for it.
  - The model also does not capture the wrap-around of a release build.
- `LazyTiles.LazyTileSource.FromSerializedBitmap`: the model assumes, and does
  not check, that `parse_tile_index` returns only byte ranges inside the
  blob (its `requires`). `Valid()` of every source, and with it the safety
  of the slice at map_renderer.rs:31, rests on that assumption about the
  parser.
- `TileBuffers.TileBufferFromJourneyBitmap` takes `TileBuffer::calculate_tile_index`
  as the row-major index `(tile_y - y) * width + (tile_x - x)`. Its code is
  not part of this model. With that index, the source's "Index out of
  bounds" check cannot fail, so the model has no such error.
- `TileBuffers.TileBufferError` keeps each rejection's kind, not its
  formatted message.
- `MapRendering.LazyAndEagerTileBuffersAgree` is weaker than the test's
  assertion. It holds only for a shader that reads just the needed tiles,
  a property of `TileShader2` that the model cannot see. So the model
  proves agreement of the bitmaps on the needed tiles, and buffer equality
  only under that assumption.
- `MapRendering.ViewportThenFullLoad`: the test's counts
  `loaded_after_viewport > 0` and `< total_tiles` depend on the concrete
  geographic data. The model proves instead that only needed tiles are
  present and that each equals the eager tile.
- The eager path `deserialize_journey_bitmap` is not part of this model. It
  stands as `EagerDecode`: every indexed tile decoded, and a failure of the
  whole decode (None) when one payload does not decode. `EagerBitmap` is
  the bitmap of the indexed tiles that do decode, with undecodable payloads
  skipped, and it is what a lazy renderer ends with. It equals the eager
  result only for blobs whose payloads all decode. On a blob with a
  corrupt payload, the lazy renderer shows every other tile while the
  eager path fails. `FullLoadMatchesEager`, `ViewportThenFullLoad` and
  `LiveViewportThenFullLoad` state the equality with `EagerDecode` for
  that case, and with `EagerBitmap` for every blob.
- Left out entirely:
  - the timing assertion and the image-comparison test in
    `app/rust/tests/map_renderer.rs`;
  - all of `app/rust/src/merged_journey_builder.rs`;
  - hash-set iteration order: the model loads a set in an arbitrary order,
    and the model proves the result does not depend on it.

## Notes on the code's behaviour

Lines are those of `app/rust/src/renderer/map_renderer.rs`.

- `drop_lazy_source` clears `loaded_tiles` as well as dropping the source
  (lines 128-129), as its doc comment (line 126) says.
- `replace` leaves `loaded_tiles` empty (line 105).
- A tile that fails to decode counts as absent, and its coordinate stays
  loaded (lines 32 and 189).
- The pixel loop's comment (line 388) says "Only add if not already present", but
  the code pushes every in-bounds pixel, so duplicates are kept (lines
  388-390). `InBoundsPixels` keeps them too.
