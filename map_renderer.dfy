/**
 * `MapRenderer`: the journey bitmap the map is drawn from, fed lazily from a
 * `LazyTileSource` of finalized journeys. Tiles of the source are decoded
 * and merged into the bitmap only when a viewport needs them (or when the
 * whole bitmap is asked for); `loaded_tiles` remembers every coordinate
 * already asked, whether or not the source had a tile there.
 *
 * The cache behaviour is specified on values: `CacheState` is the pair
 * (bitmap, loaded set), `EnsureLoaded` is one lookup, `EnsureAll` the lookup
 * of a whole set of coordinates in any order. The class methods are proved
 * against these functions, and the lemmas state what the source promises
 * about them.
 */
module MapRendering {
  import opened Wrappers
  import opened Primitives
  import opened LazyTiles
  import opened NeededTiles
  import opened TileBuffers
  import opened VersionTags

  /** The part of a renderer's state that tile loading reads and writes. */
  datatype CacheState<Tile> = CacheState(bitmap: Bitmap<Tile>, loaded: set<Coord>)

  function Lookup<Tile>(bitmap: Bitmap<Tile>, c: Coord): Option<Tile> {
    if c in bitmap then Some(bitmap[c]) else None
  }

  /** Two bitmaps that hold the same tile at every coordinate are equal. */
  lemma BitmapExtensionality<Tile>(a: Bitmap<Tile>, b: Bitmap<Tile>)
    requires forall c :: Lookup(a, c) == Lookup(b, c)
    ensures a == b
  {
    forall c | c in a
      ensures c in b && a[c] == b[c]
    {
      assert Lookup(a, c) == Lookup(b, c);
    }
    forall c | c in b
      ensures c in a
    {
      assert Lookup(a, c) == Lookup(b, c);
    }
  }

  ghost predicate SourceValid<Tile>(source: Option<LazyTileSource<Tile>>) {
    source.Some? ==> source.value.Valid()
  }

  /** The tile the lazy source yields for `c`, if there is a source. */
  function Decoded<Tile>(source: Option<LazyTileSource<Tile>>, c: Coord): Option<Tile>
    requires SourceValid(source)
  {
    if source.None? then None else source.value.DecompressTile(c)
  }

  /**
   * map_renderer.rs:192-202: a decoded tile is merged into the live tile at
   * its coordinate (`existing_tile.merge_from(&finalized_tile)`) or inserted
   * when there is none; nothing decoded leaves the live tile as it is.
   */
  function Combine<Tile>(live: Option<Tile>, decoded: Option<Tile>, merge: (Tile, Tile) -> Tile): Option<Tile> {
    match decoded
    case None => live
    case Some(finalized) =>
      match live
      case Some(existing) => Some(merge(existing, finalized))
      case None => Some(finalized)
  }

  /** What coordinate `c` holds after the coordinates of `pending` are materialised. */
  function TileAfter<Tile>(s: CacheState<Tile>, source: Option<LazyTileSource<Tile>>,
                           merge: (Tile, Tile) -> Tile, pending: set<Coord>, c: Coord): Option<Tile>
    requires SourceValid(source)
  {
    if c in pending then Combine(Lookup(s.bitmap, c), Decoded(source, c), merge) else Lookup(s.bitmap, c)
  }

  /**
   * `ensure_tile_loaded(x, y)` (map_renderer.rs:185-205) on the state: a
   * coordinate already loaded is left alone; otherwise it is marked loaded
   * first, whatever the source yields, and only the bitmap entry at that
   * coordinate can change.
   */
  function EnsureLoaded<Tile>(s: CacheState<Tile>, source: Option<LazyTileSource<Tile>>,
                              merge: (Tile, Tile) -> Tile, c: Coord): CacheState<Tile>
    requires SourceValid(source)
  {
    if c in s.loaded then s
    else
      var t := Combine(Lookup(s.bitmap, c), Decoded(source, c), merge);
      CacheState(if t.Some? then s.bitmap[c := t.value] else s.bitmap, s.loaded + {c})
  }

  /**
   * Loading every coordinate of `keys`: the loops of the source visit a
   * hash set or the index's keys in no particular order, so the
   * specification loads an arbitrary one last. `EnsureAllStep` shows the
   * order does not matter.
   */
  ghost function EnsureAll<Tile>(s: CacheState<Tile>, source: Option<LazyTileSource<Tile>>,
                                 merge: (Tile, Tile) -> Tile, keys: set<Coord>): CacheState<Tile>
    requires SourceValid(source)
    decreases |keys|
  {
    if keys == {} then s
    else
      var c :| c in keys;
      EnsureLoaded(EnsureAll(s, source, merge, keys - {c}), source, merge, c)
  }

  /** The coordinate `EnsureAll` loads last. */
  lemma EnsureAllLast<Tile>(s: CacheState<Tile>, source: Option<LazyTileSource<Tile>>,
                            merge: (Tile, Tile) -> Tile, keys: set<Coord>) returns (c: Coord)
    requires SourceValid(source) && keys != {}
    ensures c in keys
    ensures EnsureAll(s, source, merge, keys) == EnsureLoaded(EnsureAll(s, source, merge, keys - {c}), source, merge, c)
  {
    c :| c in keys && EnsureAll(s, source, merge, keys)
                      == EnsureLoaded(EnsureAll(s, source, merge, keys - {c}), source, merge, c);
  }

  lemma {:induction false} EnsureAllLoaded<Tile>(s: CacheState<Tile>, source: Option<LazyTileSource<Tile>>,
                                                 merge: (Tile, Tile) -> Tile, keys: set<Coord>)
    requires SourceValid(source)
    ensures EnsureAll(s, source, merge, keys).loaded == s.loaded + keys
    decreases |keys|
  {
    if keys != {} {
      var c := EnsureAllLast(s, source, merge, keys);
      var rest := keys - {c};
      EnsureAllLoaded(s, source, merge, rest);
      var t := EnsureAll(s, source, merge, rest);
      calc {
        EnsureAll(s, source, merge, keys).loaded;
        EnsureLoaded(t, source, merge, c).loaded;
        t.loaded + {c};
        s.loaded + rest + {c};
        { assert rest + {c} == keys; }
        s.loaded + keys;
      }
    }
  }

  /** What a coordinate holds after `EnsureAll` does not depend on the order of loading. */
  lemma {:induction false} LookupEnsureAll<Tile>(s: CacheState<Tile>, source: Option<LazyTileSource<Tile>>,
                                                 merge: (Tile, Tile) -> Tile, keys: set<Coord>, k: Coord)
    requires SourceValid(source)
    ensures Lookup(EnsureAll(s, source, merge, keys).bitmap, k) == TileAfter(s, source, merge, keys - s.loaded, k)
    decreases |keys|
  {
    if keys != {} {
      var c := EnsureAllLast(s, source, merge, keys);
      var t := EnsureAll(s, source, merge, keys - {c});
      LookupEnsureAll(s, source, merge, keys - {c}, k);
      LookupEnsureAll(s, source, merge, keys - {c}, c);
      EnsureAllLoaded(s, source, merge, keys - {c});
      LookupEnsureLoaded(t, source, merge, c, k);
    }
  }

  /**
   * map_renderer.rs:185-190: after `ensure_tile_loaded(x, y)` the coordinate
   * is loaded whatever the source holds; a coordinate already loaded is left
   * alone; no other bitmap entry changes and no other key appears.
   */
  lemma EnsureLoadedFrame<Tile>(s: CacheState<Tile>, source: Option<LazyTileSource<Tile>>,
                                merge: (Tile, Tile) -> Tile, c: Coord)
    requires SourceValid(source)
    ensures var r := EnsureLoaded(s, source, merge, c);
      && r.loaded == s.loaded + {c}
      && (c in s.loaded ==> r == s)
      && (forall k :: k != c ==> Lookup(r.bitmap, k) == Lookup(s.bitmap, k))
      && r.bitmap.Keys <= s.bitmap.Keys + {c}
  {
  }

  /**
   * After loading `keys`, all of them are loaded; only the coordinates not
   * loaded before can change, and the bitmap's keys grow by exactly those
   * of them whose tiles decode.
   */
  lemma EnsureAllFrame<Tile>(s: CacheState<Tile>, source: Option<LazyTileSource<Tile>>,
                             merge: (Tile, Tile) -> Tile, keys: set<Coord>)
    requires SourceValid(source)
    ensures var r := EnsureAll(s, source, merge, keys);
      && r.loaded == s.loaded + keys
      && (forall c :: c !in keys - s.loaded ==> Lookup(r.bitmap, c) == Lookup(s.bitmap, c))
      && r.bitmap.Keys == s.bitmap.Keys + (set c | c in keys - s.loaded && Decoded(source, c).Some?)
  {
    var r := EnsureAll(s, source, merge, keys);
    EnsureAllLoaded(s, source, merge, keys);
    forall c
      ensures Lookup(r.bitmap, c) == TileAfter(s, source, merge, keys - s.loaded, c)
    {
      LookupEnsureAll(s, source, merge, keys, c);
    }
  }

  lemma LookupEnsureLoaded<Tile>(s: CacheState<Tile>, source: Option<LazyTileSource<Tile>>,
                                 merge: (Tile, Tile) -> Tile, c: Coord, k: Coord)
    requires SourceValid(source)
    ensures Lookup(EnsureLoaded(s, source, merge, c).bitmap, k) == TileAfter(s, source, merge, {c} - s.loaded, k)
  {
  }

  /**
   * map_renderer.rs:191-203: a tile decoded for a coordinate that already
   * has live data is merged into it, never put in its place; with no live
   * tile it is inserted as decoded; with no source, or nothing decoded, the
   * bitmap stays as it was.
   */
  lemma EnsureLoadedMerges<Tile>(s: CacheState<Tile>, source: Option<LazyTileSource<Tile>>,
                                 merge: (Tile, Tile) -> Tile, c: Coord)
    requires SourceValid(source) && c !in s.loaded
    ensures var r := EnsureLoaded(s, source, merge, c);
      && (Decoded(source, c).Some? && c in s.bitmap ==>
            c in r.bitmap && r.bitmap[c] == merge(s.bitmap[c], Decoded(source, c).value))
      && (Decoded(source, c).Some? && c !in s.bitmap ==>
            c in r.bitmap && r.bitmap[c] == Decoded(source, c).value)
      && (Decoded(source, c).None? ==> r.bitmap == s.bitmap)
  {
    var r := EnsureLoaded(s, source, merge, c);
    if Decoded(source, c).None? {
      LookupEnsureLoaded(s, source, merge, c, c);
      BitmapExtensionality(r.bitmap, s.bitmap);
    }
  }

  /** A second `ensure_tile_loaded` of the same coordinate changes nothing. */
  lemma EnsureLoadedIdempotent<Tile>(s: CacheState<Tile>, source: Option<LazyTileSource<Tile>>,
                                     merge: (Tile, Tile) -> Tile, c: Coord)
    requires SourceValid(source)
    ensures EnsureLoaded(EnsureLoaded(s, source, merge, c), source, merge, c) == EnsureLoaded(s, source, merge, c)
  {
  }

  /** Loading no coordinate changes nothing. */
  lemma EnsureAllNone<Tile>(s: CacheState<Tile>, source: Option<LazyTileSource<Tile>>, merge: (Tile, Tile) -> Tile)
    requires SourceValid(source)
    ensures EnsureAll(s, source, merge, {}) == s
  {
  }

  /** One more `ensure_tile_loaded` extends the set of coordinates loaded; this is the loop's step. */
  lemma EnsureAllStep<Tile>(s: CacheState<Tile>, source: Option<LazyTileSource<Tile>>,
                            merge: (Tile, Tile) -> Tile, done: set<Coord>, c: Coord)
    requires SourceValid(source) && c !in done
    ensures EnsureLoaded(EnsureAll(s, source, merge, done), source, merge, c)
         == EnsureAll(s, source, merge, done + {c})
  {
    var t := EnsureAll(s, source, merge, done);
    var lhs := EnsureLoaded(t, source, merge, c);
    var rhs := EnsureAll(s, source, merge, done + {c});
    EnsureAllLoaded(s, source, merge, done);
    EnsureAllLoaded(s, source, merge, done + {c});
    forall k
      ensures Lookup(lhs.bitmap, k) == Lookup(rhs.bitmap, k)
    {
      LookupEnsureLoaded(t, source, merge, c, k);
      LookupEnsureAll(s, source, merge, done, k);
      LookupEnsureAll(s, source, merge, done + {c}, k);
    }
    BitmapExtensionality(lhs.bitmap, rhs.bitmap);
  }

  /** Loading `a`, then `b`, is loading `a + b`. */
  lemma EnsureAllUnion<Tile>(s: CacheState<Tile>, source: Option<LazyTileSource<Tile>>,
                             merge: (Tile, Tile) -> Tile, a: set<Coord>, b: set<Coord>)
    requires SourceValid(source)
    ensures EnsureAll(EnsureAll(s, source, merge, a), source, merge, b) == EnsureAll(s, source, merge, a + b)
  {
    var t := EnsureAll(s, source, merge, a);
    var lhs := EnsureAll(t, source, merge, b);
    var rhs := EnsureAll(s, source, merge, a + b);
    EnsureAllLoaded(s, source, merge, a);
    EnsureAllLoaded(t, source, merge, b);
    EnsureAllLoaded(s, source, merge, a + b);
    forall k
      ensures Lookup(lhs.bitmap, k) == Lookup(rhs.bitmap, k)
    {
      LookupEnsureAll(t, source, merge, b, k);
      LookupEnsureAll(s, source, merge, a, k);
      LookupEnsureAll(s, source, merge, a + b, k);
    }
    BitmapExtensionality(lhs.bitmap, rhs.bitmap);
  }

  /** Loading the same coordinates twice is loading them once. */
  lemma EnsureAllIdempotent<Tile>(s: CacheState<Tile>, source: Option<LazyTileSource<Tile>>,
                                  merge: (Tile, Tile) -> Tile, keys: set<Coord>)
    requires SourceValid(source)
    ensures EnsureAll(EnsureAll(s, source, merge, keys), source, merge, keys) == EnsureAll(s, source, merge, keys)
  {
    EnsureAllUnion(s, source, merge, keys, keys);
    assert keys + keys == keys;
  }

  /**
   * Every indexed tile that decodes; an undecodable payload is skipped
   * here. The eager path, `EagerDecode`, gives this bitmap only when every
   * payload decodes.
   */
  function EagerBitmap<Tile>(source: LazyTileSource<Tile>): (r: Bitmap<Tile>)
    requires source.Valid()
    ensures r.Keys <= source.TileKeys()
  {
    map c | c in source.tileIndex && source.DecompressTile(c).Some? :: source.DecompressTile(c).value
  }

  /**
   * The eager path, `journey_data::deserialize_journey_bitmap` of the
   * source's blob (its code is not part of this model): each indexed tile
   * decoded, and a failure of the whole decode as soon as one payload does
   * not decode.
   */
  function EagerDecode<Tile>(source: LazyTileSource<Tile>): (r: Option<Bitmap<Tile>>)
    requires source.Valid()
    ensures r.Some? <==> forall c :: c in source.tileIndex ==> source.DecompressTile(c).Some?
    ensures r.Some? ==> r.value.Keys == source.TileKeys()
  {
    if forall c :: c in source.tileIndex ==> source.DecompressTile(c).Some? then Some(EagerBitmap(source)) else None
  }

  /** Live tiles with historical tiles merged in where both exist. */
  function MergeInto<Tile>(live: Bitmap<Tile>, finalized: Bitmap<Tile>, merge: (Tile, Tile) -> Tile): (r: Bitmap<Tile>)
    ensures r.Keys == live.Keys + finalized.Keys
  {
    map c | c in live.Keys + finalized.Keys :: Combine(Lookup(live, c), Lookup(finalized, c), merge).value
  }

  /**
   * `ensure_all_tiles_loaded` on a renderer that has loaded nothing yet
   * yields the live tiles merged with the eagerly deserialised bitmap.
   */
  lemma FullLoadMatchesEager<Tile>(s: CacheState<Tile>, source: LazyTileSource<Tile>, merge: (Tile, Tile) -> Tile)
    requires source.Valid() && s.loaded == {}
    ensures EnsureAll(s, Some(source), merge, source.TileKeys()).bitmap
         == MergeInto(s.bitmap, EagerBitmap(source), merge)
    ensures EagerDecode(source).Some? ==>
      EnsureAll(s, Some(source), merge, source.TileKeys()).bitmap == MergeInto(s.bitmap, EagerDecode(source).value, merge)
  {
    var r := EnsureAll(s, Some(source), merge, source.TileKeys());
    var e := MergeInto(s.bitmap, EagerBitmap(source), merge);
    forall k
      ensures Lookup(r.bitmap, k) == Lookup(e, k)
    {
      LookupEnsureAll(s, Some(source), merge, source.TileKeys(), k);
    }
    BitmapExtensionality(r.bitmap, e);
  }

  /**
   * The integration test's sequence (app/rust/tests/map_renderer.rs:103-158)
   * on a renderer just given a lazy source and an empty ongoing bitmap: it
   * holds no tile; after a viewport's pre-load it holds only tiles of the
   * viewport, each equal to the eager one; after `ensure_all_tiles_loaded`
   * it equals the eager bitmap.
   */
  lemma ViewportThenFullLoad<Tile>(source: LazyTileSource<Tile>, merge: (Tile, Tile) -> Tile, needed: set<Coord>)
    requires source.Valid()
    ensures var fresh0 := CacheState(map[], {});
      var viewport := EnsureAll(fresh0, Some(source), merge, needed);
      && viewport.bitmap.Keys <= needed
      && (forall c :: c in needed ==> Lookup(viewport.bitmap, c) == Lookup(EagerBitmap(source), c))
      && EnsureAll(viewport, Some(source), merge, source.TileKeys()).bitmap == EagerBitmap(source)
      && (EagerDecode(source).Some? ==>
            EnsureAll(viewport, Some(source), merge, source.TileKeys()).bitmap == EagerDecode(source).value)
  {
    var fresh0: CacheState<Tile> := CacheState(map[], {});
    var viewport := EnsureAll(fresh0, Some(source), merge, needed);
    EnsureAllFrame(fresh0, Some(source), merge, needed);
    assert viewport.bitmap.Keys <= needed;
    forall c | c in needed
      ensures Lookup(viewport.bitmap, c) == Lookup(EagerBitmap(source), c)
    {
      LookupEnsureAll(fresh0, Some(source), merge, needed, c);
    }
    EnsureAllUnion(fresh0, Some(source), merge, needed, source.TileKeys());
    var full := EnsureAll(fresh0, Some(source), merge, needed + source.TileKeys());
    forall k
      ensures Lookup(full.bitmap, k) == Lookup(EagerBitmap(source), k)
    {
      LookupEnsureAll(fresh0, Some(source), merge, needed + source.TileKeys(), k);
    }
    BitmapExtensionality(full.bitmap, EagerBitmap(source));
    assert EnsureAll(viewport, Some(source), merge, source.TileKeys()) == full;
  }

  /**
   * The path of a renderer with live data: `replace_lazy(source, live)`,
   * a viewport pre-load of `needed`, then `ensure_all_tiles_loaded`. The
   * result is the live tiles with the decoded tiles merged in, whatever
   * the viewport was.
   */
  lemma LiveViewportThenFullLoad<Tile>(live: Bitmap<Tile>, source: LazyTileSource<Tile>,
                                       merge: (Tile, Tile) -> Tile, needed: set<Coord>)
    requires source.Valid()
    ensures var viewport := EnsureAll(CacheState(live, {}), Some(source), merge, needed);
      && EnsureAll(viewport, Some(source), merge, source.TileKeys()).bitmap == MergeInto(live, EagerBitmap(source), merge)
      && (EagerDecode(source).Some? ==>
            EnsureAll(viewport, Some(source), merge, source.TileKeys()).bitmap == MergeInto(live, EagerDecode(source).value, merge))
  {
    var s0 := CacheState(live, {});
    var viewport := EnsureAll(s0, Some(source), merge, needed);
    var keys := needed + source.TileKeys();
    EnsureAllUnion(s0, Some(source), merge, needed, source.TileKeys());
    var full := EnsureAll(s0, Some(source), merge, keys);
    var e := MergeInto(live, EagerBitmap(source), merge);
    forall k
      ensures Lookup(full.bitmap, k) == Lookup(e, k)
    {
      LookupEnsureAll(s0, Some(source), merge, keys, k);
    }
    BitmapExtensionality(full.bitmap, e);
  }

  /** Two bitmaps hold the same tile at every coordinate of `keys`. */
  ghost predicate AgreeOn<Tile>(a: Bitmap<Tile>, b: Bitmap<Tile>, keys: set<Coord>) {
    forall c :: c in keys ==> Lookup(a, c) == Lookup(b, c)
  }

  /**
   * The shader draws every view tile of the block from the bitmap tiles in
   * `keys` alone: two bitmaps that agree on `keys` give the same pixels.
   */
  ghost predicate ShaderReadsOnly<Tile(!new)>(shader: Shader<Tile>, keys: set<Coord>,
                                        x: int, y: int, z: int, width: int, height: int, bufferSizePower: int) {
    ParametersValid(y, z, width, height, bufferSizePower) ==>
      forall a: Bitmap<Tile>, b: Bitmap<Tile>, col: int, row: int ::
        AgreeOn(a, b, keys) && 0 <= col < width && 0 <= row < height ==>
          CellPixels(a, shader, x, y, z, bufferSizePower, col, row)
            == CellPixels(b, shader, x, y, z, bufferSizePower, col, row)
  }

  /**
   * The integration test's tile buffer comparison
   * (app/rust/tests/map_renderer.rs:109-142): a renderer given a lazy
   * source and an empty ongoing bitmap renders a viewport exactly as a
   * renderer holding the eagerly decoded bitmap does, provided the shader
   * reads only the tiles `compute_needed_bitmap_tiles` names.
   */
  lemma LazyAndEagerTileBuffersAgree<Tile(!new)>(source: LazyTileSource<Tile>, merge: (Tile, Tile) -> Tile,
                                           shader: Shader<Tile>, x: int, y: int, z: int,
                                           width: int, height: int, bufferSizePower: int)
    requires source.Valid()
    requires ShaderReadsOnly(shader, Needed(x, y, z, width, height), x, y, z, width, height, bufferSizePower)
    ensures var viewport := EnsureAll(CacheState(map[], {}), Some(source), merge, Needed(x, y, z, width, height));
      ExpectedTileBuffer(viewport.bitmap, shader, x, y, z, width, height, bufferSizePower)
        == ExpectedTileBuffer(EagerBitmap(source), shader, x, y, z, width, height, bufferSizePower)
  {
    var keys := Needed(x, y, z, width, height);
    var viewport := EnsureAll(CacheState(map[], {}), Some(source), merge, keys);
    if ParametersValid(y, z, width, height, bufferSizePower) {
      ViewportThenFullLoad(source, merge, keys);
      assert AgreeOn(viewport.bitmap, EagerBitmap(source), keys);
      var eager := ExpectedTileBuffer(EagerBitmap(source), shader, x, y, z, width, height, bufferSizePower).value;
      forall i | 0 <= i < width * height
        ensures eager.tileData[i] == CellAt(viewport.bitmap, shader, x, y, z, width, bufferSizePower, i)
      {
        IndexInBlock(width, height, i);
      }
      ExpectedTileBufferOk(viewport.bitmap, shader, x, y, z, width, height, bufferSizePower, eager.tileData);
    }
  }

  /**
   * `MapRenderer` (map_renderer.rs:40-246). `Tile::merge_from` is not part
   * of this model; `merge(existing, finalized)` stands for the tile that
   * `existing.merge_from(&finalized)` leaves. The area cache is kept as the
   * set of its keys, the area value as an optional number.
   */
  class MapRenderer<Tile> {
    const merge: (Tile, Tile) -> Tile
    var bitmap: Bitmap<Tile>
    var lazySource: Option<LazyTileSource<Tile>>
    var loadedTiles: set<Coord>
    var areaCacheKeys: set<Coord>
    var version: u64
    var currentArea: Option<u64>

    ghost predicate Valid()
      reads this
    {
      SourceValid(lazySource)
    }

    function State(): CacheState<Tile>
      reads this
    {
      CacheState(bitmap, loadedTiles)
    }

    /** `MapRenderer::new`: the given bitmap, no lazy source, nothing loaded, version 0. */
    constructor (journeyBitmap: Bitmap<Tile>, merge: (Tile, Tile) -> Tile)
      ensures Valid() && this.merge == merge
      ensures bitmap == journeyBitmap && lazySource.None? && loadedTiles == {}
      ensures areaCacheKeys == {} && version == 0 && currentArea.None?
    {
      this.merge := merge;
      bitmap := journeyBitmap;
      lazySource := None;
      loadedTiles := {};
      areaCacheKeys := {};
      version := 0;
      currentArea := None;
    }

    /** `reset`: the version moves on by a wrapping +1 and the cached area is dropped. */
    method Reset()
      modifies this`version, this`currentArea
      ensures old(Valid()) ==> Valid()
      ensures version == WrappingIncrement(old(version)) && currentArea.None?
    {
      version := WrappingIncrement(version);
      currentArea := None;
    }

    /**
     * `update`: `f` stands for the callback, returning the changed bitmap
     * and the tile positions it reported; their area-cache entries are
     * dropped, then the renderer is reset.
     */
    method Update(f: Bitmap<Tile> -> (Bitmap<Tile>, seq<Coord>))
      requires Valid()
      modifies this
      ensures Valid()
      ensures bitmap == f(old(bitmap)).0
      ensures areaCacheKeys == old(areaCacheKeys) - (set c | c in f(old(bitmap)).1)
      ensures version == WrappingIncrement(old(version)) && currentArea.None?
      ensures lazySource == old(lazySource) && loadedTiles == old(loadedTiles)
    {
      var (newBitmap, changed) := f(bitmap);
      bitmap := newBitmap;
      var k := 0;
      while k < |changed|
        invariant 0 <= k <= |changed|
        invariant areaCacheKeys == old(areaCacheKeys) - (set c | c in changed[..k])
        invariant bitmap == newBitmap && lazySource == old(lazySource) && loadedTiles == old(loadedTiles)
        invariant version == old(version)
      {
        assert changed[..k + 1] == changed[..k] + [changed[k]];
        areaCacheKeys := areaCacheKeys - {changed[k]};
        k := k + 1;
      }
      assert changed[..k] == changed;
      Reset();
    }

    /** `replace`: a new bitmap, no lazy source, nothing loaded, area cache cleared, reset. */
    method Replace(journeyBitmap: Bitmap<Tile>)
      modifies this
      ensures Valid()
      ensures bitmap == journeyBitmap && lazySource.None? && loadedTiles == {} && areaCacheKeys == {}
      ensures version == WrappingIncrement(old(version)) && currentArea.None?
    {
      bitmap := journeyBitmap;
      lazySource := None;
      loadedTiles := {};
      areaCacheKeys := {};
      Reset();
    }

    /** `replace_lazy`: the ongoing bitmap and the lazy source, nothing loaded, area cache cleared, reset. */
    method ReplaceLazy(source: LazyTileSource<Tile>, ongoingBitmap: Bitmap<Tile>)
      requires source.Valid()
      modifies this
      ensures Valid()
      ensures bitmap == ongoingBitmap && lazySource == Some(source) && loadedTiles == {} && areaCacheKeys == {}
      ensures version == WrappingIncrement(old(version)) && currentArea.None?
    {
      bitmap := ongoingBitmap;
      lazySource := Some(source);
      loadedTiles := {};
      areaCacheKeys := {};
      Reset();
    }

    /** `drop_lazy_source`: no source and nothing loaded; bitmap and version stay. */
    method DropLazySource()
      modifies this`lazySource, this`loadedTiles
      ensures Valid()
      ensures lazySource.None? && loadedTiles == {}
    {
      lazySource := None;
      loadedTiles := {};
    }

    /** `get_version_string`: it parses back to the current version. */
    function GetVersionString(): (s: string)
      reads this
      ensures ParseVersionString(s) == Some(version)
      ensures ParseVersionString("\"" + s + "\"") == Some(version)
    {
      ParseVersionStringRoundTrip(version);
      VersionString(version)
    }

    /** `has_changed_since`: a reported version string always parses back to the current version. */
    function HasChangedSince(clientVersion: Option<string>): (r: Option<string>)
      reads this
      ensures r.None? <==> clientVersion.Some? && ParseVersionString(clientVersion.value) == Some(version)
      ensures r.Some? ==> r.value == GetVersionString()
    {
      ChangedSince(version, clientVersion)
    }

    /** `get_latest_bitmap_if_changed`: the bitmap and version string exactly when the version changed. */
    function GetLatestBitmapIfChanged(clientVersion: Option<string>): (r: Option<(Bitmap<Tile>, string)>)
      reads this
      ensures r.None? <==> HasChangedSince(clientVersion).None?
      ensures r.Some? ==> r.value == (bitmap, GetVersionString())
    {
      match ChangedSince(version, clientVersion)
      case None => None
      case Some(versionString) => Some((bitmap, versionString))
    }

    /** `ensure_tile_loaded` (map_renderer.rs:185-205). */
    method EnsureTileLoaded(x: u16, y: u16)
      requires Valid()
      modifies this`bitmap, this`loadedTiles
      ensures Valid()
      ensures State() == EnsureLoaded(old(State()), lazySource, merge, (x, y))
    {
      if (x, y) in loadedTiles {
        return;
      }
      loadedTiles := loadedTiles + {(x, y)};
      if lazySource.Some? {
        var lazy := lazySource.value;
        match lazy.DecompressTile((x, y))
        case Some(finalizedTile) =>
          if (x, y) in bitmap {
            bitmap := bitmap[(x, y) := merge(bitmap[(x, y)], finalizedTile)];
          } else {
            bitmap := bitmap[(x, y) := finalizedTile];
          }
        case None =>
      }
    }

    /**
     * The loop `for (x, y) in keys { self.ensure_tile_loaded(x, y) }` of
     * map_renderer.rs:213-215 and 231-233, over a set visited in any order.
     */
    method EnsureTilesLoaded(keys: set<Coord>)
      requires Valid()
      modifies this`bitmap, this`loadedTiles
      ensures Valid()
      ensures State() == EnsureAll(old(State()), lazySource, merge, keys)
    {
      ghost var s0 := State();
      EnsureAllNone(s0, lazySource, merge);
      var todo := keys;
      assert keys - todo == {};
      while todo != {}
        invariant todo <= keys
        invariant Valid()
        invariant State() == EnsureAll(s0, lazySource, merge, keys - todo)
        decreases |todo|
      {
        var c :| c in todo;
        ghost var done := keys - todo;
        EnsureAllStep(s0, lazySource, merge, done, c);
        assert (c.0, c.1) == c;
        ghost var before := State();
        ghost var src := lazySource;
        EnsureTileLoaded(c.0, c.1);
        assert lazySource == src;
        assert State() == EnsureLoaded(before, src, merge, c);
        assert State() == EnsureAll(s0, src, merge, done + {c});
        todo := todo - {c};
        assert keys - todo == done + {c};
      }
      assert keys - todo == keys;
    }

    /** `ensure_all_tiles_loaded` (map_renderer.rs:210-217): every indexed coordinate is loaded. */
    method EnsureAllTilesLoaded()
      requires Valid()
      modifies this`bitmap, this`loadedTiles
      ensures Valid()
      ensures State() == if lazySource.Some? then EnsureAll(old(State()), lazySource, merge, lazySource.value.TileKeys())
                         else old(State())
    {
      if lazySource.Some? {
        var keys := lazySource.value.TileKeys();
        EnsureTilesLoaded(keys);
      }
    }

    /**
     * `get_tile_buffer` (map_renderer.rs:219-245): with a lazy source, the
     * tiles the viewport needs are loaded first; the buffer is then rendered
     * from the bitmap as it is after that.
     */
    method GetTileBuffer(shader: Shader<Tile>, x: int, y: int, z: int, width: int, height: int, bufferSizePower: int)
      returns (r: Result<TileBuffer, TileBufferError>)
      requires Valid()
      requires lazySource.Some? ==> ArgumentsFit(x, y, z, width, height)
      requires CheckParameters(y, z, width, height, bufferSizePower).None? ==> x + width <= I64_MAX
      modifies this`bitmap, this`loadedTiles
      ensures Valid()
      ensures State() == if lazySource.Some? then EnsureAll(old(State()), lazySource, merge, Needed(x, y, z, width, height))
                         else old(State())
      ensures r == ExpectedTileBuffer(bitmap, shader, x, y, z, width, height, bufferSizePower)
    {
      if lazySource.Some? {
        var needed := ComputeNeededBitmapTiles(x, y, z, width, height);
        EnsureTilesLoaded(needed);
      }
      r := TileBufferFromJourneyBitmap(bitmap, shader, x, y, z, width, height, bufferSizePower);
    }
  }

  /**
   * After `get_tile_buffer` with a lazy source, the coordinates newly loaded
   * and the bitmap entries changed all lie in the viewport's needed set.
   */
  lemma PreloadTouchesOnlyNeeded<Tile>(s: CacheState<Tile>, source: LazyTileSource<Tile>, merge: (Tile, Tile) -> Tile,
                                       x: int, y: int, z: int, width: int, height: int)
    requires source.Valid()
    ensures var r := EnsureAll(s, Some(source), merge, Needed(x, y, z, width, height));
      && r.loaded - s.loaded <= Needed(x, y, z, width, height)
      && (forall c :: Lookup(r.bitmap, c) != Lookup(s.bitmap, c) ==> c in Needed(x, y, z, width, height))
      && (forall c :: c in r.bitmap.Keys - s.bitmap.Keys ==> c.0 < 512 && c.1 < 512)
  {
    var r := EnsureAll(s, Some(source), merge, Needed(x, y, z, width, height));
    EnsureAllFrame(s, Some(source), merge, Needed(x, y, z, width, height));
    forall c | c in r.bitmap.Keys - s.bitmap.Keys
      ensures c.0 < 512 && c.1 < 512
    {
      NeededInGrid(x, y, z, width, height);
    }
  }
}
