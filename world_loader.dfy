/**
 * The world loader of src/io/worldLoader.js: a cache of region files keyed
 * by `"<rx>_<ry>_<rz>"`, and the lookup of one chunk's bytes in a region
 * file through its index entry.
 *
 * The lookup reads only the 24-bit offset of the entry: an offset of 0
 * means "no chunk", any other offset yields a copy of the 27000 bytes that
 * start there, whatever the entry's size field says. The reads go through
 * a `DataView`, which throws a `RangeError` past the end of the buffer.
 */
module WorldLoader {
  import opened JsNumbers
  import opened Wrappers
  import JsMap
  import JsSet
  import Bytes
  import DenseChunk
  import DenseRegion

  /** The key of a region: `${regionX}_${regionY}_${regionZ}`. */
  function RegionKey(rx: int, ry: int, rz: int): string
  {
    IntToString(rx) + "_" + IntToString(ry) + "_" + IntToString(rz)
  }

  /** A `DataView` read outside the buffer. */
  datatype LoadError = RangeError

  /** Where the index entry of chunk `(cx, cy, cz)` starts: `11 + idx·5` with the order of `Region.linearIndex`. */
  function EntryPosition(cx: int, cy: int, cz: int): int
  {
    DenseRegion.HEADER_SIZE + DenseRegion.INDEX_ENTRY_SIZE * DenseRegion.LinearIndex(cx, cy, cz)
  }

  /** The three offset bytes of an entry assembled high byte first. */
  function OffsetField(buffer: seq<byte>, pos: int): nat
    requires 0 <= pos && pos + 3 <= |buffer|
  {
    Bytes.Be24(buffer[pos], buffer[pos + 1], buffer[pos + 2])
  }

  /**
   * `getChunkDataFromRegionBuffer(buffer, cx, cy, cz)`, and
   * `getCoreChunkDataFromRegionBuffer`, whose body is the same statement
   * for statement: `null` for a zero offset, otherwise
   * `buffer.slice(off, off + 27000)`, which is cut short at the end of the
   * buffer.
   */
  function ChunkDataFromRegionBuffer(buffer: seq<byte>, cx: int, cy: int, cz: int): (r: Result<Option<seq<byte>>, LoadError>)
    ensures var pos := EntryPosition(cx, cy, cz);
      && (r.Err? <==> pos < 0 || |buffer| < pos + 3)
      && (r.Ok? ==> (r.value.None? <==> OffsetField(buffer, pos) == 0))
    ensures r.Ok? && r.value.Some? ==>
      var off := OffsetField(buffer, EntryPosition(cx, cy, cz));
      var data := r.value.value;
      && |data| == (if off + DenseChunk.VOXELS <= |buffer| then DenseChunk.VOXELS else if off < |buffer| then |buffer| - off else 0)
      && forall j :: 0 <= j < |data| ==> data[j] == buffer[off + j]
  {
    var pos := EntryPosition(cx, cy, cz);
    if pos < 0 || |buffer| < pos + 3 then Err(RangeError)
    else
      var off := OffsetField(buffer, pos);
      if off == 0 then Ok(None)
      else Ok(Some(Bytes.Slice(buffer, off, off + DenseChunk.VOXELS)))
  }

  /** A file whose entry for chunk `(cx, cy, cz)` has a non-zero offset and the full size yields the entry's slice. */
  lemma LoadsEntry(file: seq<byte>, cx: int, cy: int, cz: int, core: seq<byte>)
    requires DenseRegion.InGrid(cx, cy, cz) && DenseRegion.DATA_OFFSET <= |file|
    requires var i := DenseRegion.LinearIndex(cx, cy, cz);
      && DenseRegion.EntryOffset(file, i) > 0 && DenseRegion.EntrySize(file, i) == DenseChunk.VOXELS
      && DenseRegion.EntrySlice(file, i) == core
    ensures ChunkDataFromRegionBuffer(file, cx, cy, cz) == Ok(Some(core))
  {
    DenseRegion.UnlinearOfLinear(cx, cy, cz);
    var pos := EntryPosition(cx, cy, cz);
    assert OffsetField(file, pos) == DenseRegion.EntryOffset(file, DenseRegion.LinearIndex(cx, cy, cz));
  }

  /** The loader finds in a file written by `Region.toBuffer` exactly the core stored for each chunk. */
  lemma LoadsEncodedChunk(cores: seq<seq<byte>>, cx: int, cy: int, cz: int)
    requires DenseRegion.WellFormed(cores) && DenseRegion.InGrid(cx, cy, cz)
    ensures ChunkDataFromRegionBuffer(DenseRegion.Encode(cores), cx, cy, cz)
      == Ok(Some(cores[DenseRegion.LinearIndex(cx, cy, cz)]))
  {
    var i := DenseRegion.LinearIndex(cx, cy, cz);
    DenseRegion.UnlinearOfLinear(cx, cy, cz);
    DenseRegion.EncodedEntry(cores, i);
    LoadsEntry(DenseRegion.Encode(cores), cx, cy, cz, cores[i]);
  }

  /** The size field of an entry plays no part in the lookup (as long as the copied bytes do not include it). */
  lemma SizeFieldIgnored(buffer: seq<byte>, cx: int, cy: int, cz: int, hi: byte, lo: byte)
    requires 0 <= EntryPosition(cx, cy, cz) && EntryPosition(cx, cy, cz) + 5 <= |buffer|
    requires var off := OffsetField(buffer, EntryPosition(cx, cy, cz)); off == 0 || EntryPosition(cx, cy, cz) + 5 <= off
    ensures var pos := EntryPosition(cx, cy, cz);
      ChunkDataFromRegionBuffer(buffer[pos + 3 := hi][pos + 4 := lo], cx, cy, cz)
        == ChunkDataFromRegionBuffer(buffer, cx, cy, cz)
  {
    var pos := EntryPosition(cx, cy, cz);
    var edited := buffer[pos + 3 := hi][pos + 4 := lo];
    assert OffsetField(edited, pos) == OffsetField(buffer, pos);
    var off := OffsetField(buffer, pos);
    if off != 0 {
      var a, b := ChunkDataFromRegionBuffer(edited, cx, cy, cz), ChunkDataFromRegionBuffer(buffer, cx, cy, cz);
      assert a.value.value == b.value.value;
    }
  }

  /** What `fetch(regionPath)` came to: a body, a response that is not ok, or a thrown error. */
  datatype FetchOutcome = Fetched(buffer: seq<byte>) | NotOk | Failed

  /** The buffer stored for a fetch: the body, or an empty `ArrayBuffer` in both failure cases. */
  function StoredBuffer(outcome: FetchOutcome): seq<byte>
  {
    if outcome.Fetched? then outcome.buffer else []
  }

  /** A `WorldLoader`: the keys it has started to fetch and the buffers fetched so far. */
  class Loader {
    /** `loadedRegions`. */
    var loadedRegions: JsSet.Elements
    /** `regionsData`. */
    var regionsData: JsMap.Entries<string, seq<byte>>

    /**
     * Neither collection repeats a key. A key with data need not be in
     * `loadedRegions`: the region may be unloaded while its fetch is awaited,
     * and the fetch still stores its buffer when it settles.
     */
    predicate Valid()
      reads this
    {
      JsSet.Distinct(loadedRegions) && JsMap.DistinctKeys(regionsData)
    }

    /** `new WorldLoader()`: nothing asked for, nothing stored. */
    constructor ()
      ensures Valid() && loadedRegions == [] && regionsData == []
    {
      loadedRegions := [];
      regionsData := [];
    }

    /**
     * The synchronous start of `fetchAndStoreRegionData(rx, ry, rz)`: a key
     * already recorded returns at once; a new key is recorded before the
     * fetch is awaited, so a second call for it made while the fetch is in
     * flight returns at once as well.
     */
    method BeginFetch(rx: int, ry: int, rz: int) returns (started: bool)
      requires Valid()
      modifies this
      ensures Valid()
      ensures started <==> RegionKey(rx, ry, rz) !in old(loadedRegions)
      ensures loadedRegions == JsSet.Add(old(loadedRegions), RegionKey(rx, ry, rz))
      ensures regionsData == old(regionsData)
    {
      var regionKey := RegionKey(rx, ry, rz);
      if regionKey in loadedRegions {
        return false;
      }
      loadedRegions := JsSet.Add(loadedRegions, regionKey);
      return true;
    }

    /**
     * The end of `fetchAndStoreRegionData`, once the fetch has settled: the
     * body, or an empty buffer, is stored under the key, whether or not the
     * key is still in `loadedRegions`.
     */
    method FinishFetch(rx: int, ry: int, rz: int, outcome: FetchOutcome)
      requires Valid()
      modifies this
      ensures Valid()
      ensures loadedRegions == old(loadedRegions)
      ensures regionsData == JsMap.Set(old(regionsData), RegionKey(rx, ry, rz), StoredBuffer(outcome))
    {
      var regionKey := RegionKey(rx, ry, rz);
      JsMap.SetDistinct(regionsData, regionKey, StoredBuffer(outcome));
      regionsData := JsMap.Set(regionsData, regionKey, StoredBuffer(outcome));
    }

    /** `fetchAndStoreRegionData(rx, ry, rz)` run to completion with no other call in between. */
    method FetchAndStoreRegionData(rx: int, ry: int, rz: int, outcome: FetchOutcome) returns (started: bool)
      requires Valid()
      modifies this
      ensures Valid()
      ensures started <==> RegionKey(rx, ry, rz) !in old(loadedRegions)
      ensures loadedRegions == JsSet.Add(old(loadedRegions), RegionKey(rx, ry, rz))
      ensures regionsData == if started
        then JsMap.Set(old(regionsData), RegionKey(rx, ry, rz), StoredBuffer(outcome))
        else old(regionsData)
    {
      started := BeginFetch(rx, ry, rz);
      if started {
        FinishFetch(rx, ry, rz, outcome);
      }
    }

    /** `getChunkDataFromMemory`: `null` for a region with no stored buffer, otherwise the lookup in that buffer. */
    function ChunkDataFromMemory(rx: int, ry: int, rz: int, cx: int, cy: int, cz: int): Result<Option<seq<byte>>, LoadError>
      reads this
    {
      var regionKey := RegionKey(rx, ry, rz);
      if !JsMap.Has(regionsData, regionKey) then Ok(None)
      else ChunkDataFromRegionBuffer(JsMap.Get(regionsData, regionKey).value, cx, cy, cz)
    }
  }

  /** After a failed fetch the stored buffer is empty, and a lookup in it throws rather than returning `null`. */
  lemma FailedRegionLookupThrows(m: JsMap.Entries<string, seq<byte>>, rx: int, ry: int, rz: int, cx: int, cy: int, cz: int, outcome: FetchOutcome)
    requires !outcome.Fetched?
    ensures var stored := JsMap.Set(m, RegionKey(rx, ry, rz), StoredBuffer(outcome));
      && JsMap.Get(stored, RegionKey(rx, ry, rz)) == Some([])
      && ChunkDataFromRegionBuffer([], cx, cy, cz) == Err(RangeError)
  {
    JsMap.GetSet(m, RegionKey(rx, ry, rz), StoredBuffer(outcome), RegionKey(rx, ry, rz));
  }

  /**
   * A region unloaded while its fetch is awaited: `unloadRegionIfAllChunksUnloaded`
   * deletes the key from both collections, then the fetch settles and stores
   * its buffer anyway. The buffer is kept without its key in `loadedRegions`,
   * so the next `fetchAndStoreRegionData` for the region starts a new fetch,
   * whose result replaces it.
   */
  lemma StoreAfterUnload(loaded: JsSet.Elements, data: JsMap.Entries<string, seq<byte>>, rx: int, ry: int, rz: int,
                         first: FetchOutcome, second: FetchOutcome)
    ensures var key := RegionKey(rx, ry, rz);
      var unloaded := JsSet.Remove(loaded, key);
      var orphaned := JsMap.Set(JsMap.Delete(data, key), key, StoredBuffer(first));
      && key !in unloaded
      && JsMap.Get(orphaned, key) == Some(StoredBuffer(first))
      && JsMap.Get(JsMap.Set(orphaned, key, StoredBuffer(second)), key) == Some(StoredBuffer(second))
  {
    var key := RegionKey(rx, ry, rz);
    var orphaned := JsMap.Set(JsMap.Delete(data, key), key, StoredBuffer(first));
    JsMap.GetSet(JsMap.Delete(data, key), key, StoredBuffer(first), key);
    JsMap.GetSet(orphaned, key, StoredBuffer(second), key);
  }

  /**
   * Once the file `Region.toBuffer` wrote for a region is stored under its
   * key, `getChunkDataFromMemory` serves every chunk's core from it; a
   * region with nothing stored gives `null`.
   */
  lemma MemoryServesStoredRegion(l: Loader, cores: seq<seq<byte>>, rx: int, ry: int, rz: int, cx: int, cy: int, cz: int)
    requires DenseRegion.WellFormed(cores) && DenseRegion.InGrid(cx, cy, cz)
    ensures JsMap.Get(l.regionsData, RegionKey(rx, ry, rz)) == Some(DenseRegion.Encode(cores)) ==>
      l.ChunkDataFromMemory(rx, ry, rz, cx, cy, cz) == Ok(Some(cores[DenseRegion.LinearIndex(cx, cy, cz)]))
    ensures JsMap.Get(l.regionsData, RegionKey(rx, ry, rz)).None? ==>
      l.ChunkDataFromMemory(rx, ry, rz, cx, cy, cz) == Ok(None)
  {
    LoadsEncodedChunk(cores, cx, cy, cz);
  }
}
