/**
 * The region container of the legacy stack (src/data/RegionFile.js).
 *
 * It has the same fields as the octree stack's container, but its
 * `parseIndexTable` is an empty placeholder: nothing ever stores a record in
 * the table, so every chunk lookup comes back `null`. The module reads the
 * number of chunks per region from src/core/config.js, whose object literal
 * refers to `CONFIG` while `CONFIG` is still being initialised (so loading it
 * throws); the model uses the value that literal spells out, 8 * 8 * 2 = 128.
 */
module LegacyRegionFile {
  import opened Wrappers
  import opened JsNumbers
  import opened Bytes
  import OctreeConfig
  import OctreeRegionFile

  type IndexRecord = OctreeRegionFile.IndexRecord

  /** The record of slot `i`: `indexTable[i]`, where an index outside the array reads `undefined`. */
  function RecordAt(table: seq<Option<IndexRecord>>, i: int): (r: Option<IndexRecord>)
    ensures r.Some? ==> 0 <= i < |table| && r == table[i]
    ensures 0 <= i < |table| ==> r == table[i]
  {
    if 0 <= i < |table| then table[i] else None
  }

  /**
   * What `getChunkData(i)` returns: `null` before a load or without raw data,
   * `null` for a missing record, otherwise the record's range of the raw data.
   */
  function ChunkData(isLoaded: bool, rawData: Option<seq<byte>>, table: seq<Option<IndexRecord>>, i: int): (r: Option<seq<byte>>)
    ensures r.Some? <==> isLoaded && rawData.Some? && RecordAt(table, i).Some?
    ensures r.Some? ==> r.value == Slice(rawData.value, RecordAt(table, i).value.offset,
                                         RecordAt(table, i).value.offset + RecordAt(table, i).value.size)
  {
    if !isLoaded || rawData.None? then None
    else
      match RecordAt(table, i)
      case None => None
      case Some(record) => Some(Slice(rawData.value, record.offset, record.offset + record.size))
  }

  /** A legacy region container object. */
  class RegionFile {
    var regionID: string
    var rName: string
    var rx: int
    var ry: int
    var rz: int
    var indexTable: seq<Option<IndexRecord>>
    var rawData: Option<seq<byte>>
    var isLoaded: bool
    var chunkDataBuffers: seq<(int, seq<byte>)>
    var isDirty: bool

    /** The table keeps one slot per mini-chunk. */
    ghost predicate Valid()
      reads this
    {
      |indexTable| == OctreeConfig.RegionTotalChunks()
    }

    /** No slot of the table holds a record. */
    ghost predicate Empty()
      reads this
    {
      forall k :: 0 <= k < |indexTable| ==> indexTable[k].None?
    }

    constructor (rName: string, rx: int, ry: int, rz: int)
      ensures Valid() && Empty()
      ensures regionID == OctreeRegionFile.RegionID(rName, rx, ry, rz)
      ensures this.rName == rName && this.rx == rx && this.ry == ry && this.rz == rz
      ensures indexTable == OctreeRegionFile.NoRecords() && rawData.None? && !isLoaded
      ensures chunkDataBuffers == [] && !isDirty
    {
      this.regionID := OctreeRegionFile.RegionID(rName, rx, ry, rz);
      this.rName := rName;
      this.rx := rx;
      this.ry := ry;
      this.rz := rz;
      this.indexTable := OctreeRegionFile.NoRecords();
      this.rawData := None;
      this.isLoaded := false;
      this.chunkDataBuffers := [];
      this.isDirty := false;
    }

    /**
     * `loadFile(rawDataBuffer)`: keeps the buffer, clears the table when the
     * buffer is missing or empty, leaves it as it was otherwise (the parse does
     * nothing), and marks the container loaded.
     */
    method LoadFile(raw: Option<seq<byte>>)
      requires Valid()
      modifies this
      ensures Valid() && rawData == raw && isLoaded
      ensures indexTable == if raw.Some? && |raw.value| > 0 then old(indexTable) else OctreeRegionFile.NoRecords()
      ensures old(Empty()) ==> Empty()
      ensures regionID == old(regionID) && rName == old(rName) && rx == old(rx) && ry == old(ry) && rz == old(rz)
      ensures chunkDataBuffers == old(chunkDataBuffers) && isDirty == old(isDirty)
    {
      rawData := raw;
      if raw.Some? && |raw.value| > 0 {
        ParseIndexTable();
      } else {
        indexTable := OctreeRegionFile.NoRecords();
      }
      isLoaded := true;
    }

    /** `getChunkData(chunkIndex)`. */
    method GetChunkData(chunkIndex: int) returns (r: Option<seq<byte>>)
      ensures r == ChunkData(isLoaded, rawData, indexTable, chunkIndex)
    {
      if !isLoaded || rawData.None? {
        return None;
      }
      var record := RecordAt(indexTable, chunkIndex);
      if record.None? {
        return None;
      }
      r := Some(Slice(rawData.value, record.value.offset, record.value.offset + record.value.size));
    }

    /** `parseIndexTable()`: a placeholder that changes nothing. */
    method ParseIndexTable()
    {
    }
  }

  /** A table without records yields no chunk data, whatever the container holds and whichever index is asked. */
  lemma EmptyTableYieldsNothing(isLoaded: bool, rawData: Option<seq<byte>>, table: seq<Option<IndexRecord>>, i: int)
    requires forall k :: 0 <= k < |table| ==> table[k].None?
    ensures ChunkData(isLoaded, rawData, table, i).None?
  {
  }
}
