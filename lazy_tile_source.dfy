/**
 * `LazyTileSource`: a serialized bitmap blob kept as it is, plus an index
 * from tile coordinate to the byte range of that tile's compressed payload.
 * A tile is decoded only when asked for. The source is never changed after
 * it is built, so every field is a `const`.
 */
module LazyTiles {
  import opened Wrappers
  import opened Primitives

  /** `journey_data::TileLocation`: where one tile's payload lies in the blob. */
  datatype TileLocation = TileLocation(offset: nat, length: nat)

  type TileIndex = map<Coord, TileLocation>

  /** Every indexed byte range lies inside a blob of `size` bytes. */
  predicate IndexWithin(index: TileIndex, size: nat) {
    forall c :: c in index ==> index[c].offset + index[c].length <= size
  }

  /**
   * `Tile` is the bitmap tile type of `journey_bitmap`; `deserializeTile`
   * stands for `journey_data::deserialize_tile`, whose code is not part of
   * this model.
   */
  class LazyTileSource<Tile> {
    const rawData: seq<bv8>
    const tileIndex: TileIndex
    const deserializeTile: seq<bv8> -> Result<Tile, string>

    /** The slice at map_renderer.rs:31 cannot go out of bounds. */
    ghost predicate Valid() {
      IndexWithin(tileIndex, |rawData|)
    }

    constructor (rawData: seq<bv8>, tileIndex: TileIndex, deserializeTile: seq<bv8> -> Result<Tile, string>)
      requires IndexWithin(tileIndex, |rawData|)
      ensures Valid()
      ensures this.rawData == rawData && this.tileIndex == tileIndex
      ensures this.deserializeTile == deserializeTile
    {
      this.rawData := rawData;
      this.tileIndex := tileIndex;
      this.deserializeTile := deserializeTile;
    }

    /**
     * `from_serialized_bitmap`: only the tile headers are parsed (by
     * `parseTileIndex`, standing for `journey_data::parse_tile_index`), and
     * its error is passed on. That parser rejects a record whose declared
     * size runs past the end of the blob, so an index it returns is within
     * the blob.
     */
    static method FromSerializedBitmap(
      rawData: seq<bv8>,
      parseTileIndex: seq<bv8> -> Result<TileIndex, string>,
      deserializeTile: seq<bv8> -> Result<Tile, string>)
      returns (r: Result<LazyTileSource<Tile>, string>)
      requires parseTileIndex(rawData).Ok? ==> IndexWithin(parseTileIndex(rawData).value, |rawData|)
      ensures parseTileIndex(rawData).Err? ==> r == Err(parseTileIndex(rawData).error)
      ensures parseTileIndex(rawData).Ok? ==>
        && r.Ok? && fresh(r.value) && r.value.Valid()
        && r.value.rawData == rawData
        && r.value.tileIndex == parseTileIndex(rawData).value
        && r.value.deserializeTile == deserializeTile
    {
      var parsed := parseTileIndex(rawData);
      if parsed.Err? {
        return Err(parsed.error);
      }
      var source := new LazyTileSource(rawData, parsed.value, deserializeTile);
      return Ok(source);
    }

    /** The compressed payload of an indexed tile. */
    function Payload(c: Coord): seq<bv8>
      requires Valid() && c in tileIndex
    {
      rawData[tileIndex[c].offset .. tileIndex[c].offset + tileIndex[c].length]
    }

    /**
     * `decompress_tile`: None for a coordinate with no index entry and for a
     * payload that does not deserialize; otherwise the tile its payload,
     * and only its payload, decodes to.
     */
    function DecompressTile(c: Coord): (r: Option<Tile>)
      requires Valid()
      ensures r.None? <==> c !in tileIndex || deserializeTile(Payload(c)).Err?
      ensures r.Some? ==> deserializeTile(Payload(c)) == Ok(r.value)
    {
      if c !in tileIndex then None
      else
        var loc := tileIndex[c];
        match deserializeTile(rawData[loc.offset .. loc.offset + loc.length])
        case Ok(tile) => Some(tile)
        case Err(_) => None
    }

    /** `tile_keys`: the indexed coordinates; no other coordinate ever yields a tile. */
    function TileKeys(): (keys: set<Coord>)
      requires Valid()
      ensures forall c :: c !in keys ==> DecompressTile(c).None?
    {
      tileIndex.Keys
    }
  }
}
