/**
 * The region container of the octree stack (app/data/RegionFile.js).
 *
 * A region file holds the serialized octrees of the 128 mini-chunks of one
 * region. It starts with an index table of 128 records of 16 bytes, each
 * little-endian: a 32-bit offset, a 32-bit size and a 64-bit signed
 * timestamp; an absent chunk has a record of zeros. The chunk streams
 * follow the table back to back, in index order. In memory the container
 * keeps the table, the raw file, a map from chunk index to the chunk's
 * bytes, and a dirty flag; saving recomputes every offset.
 */
module OctreeRegionFile {
  import opened Wrappers
  import opened JsNumbers
  import opened Bytes
  import opened JsMap
  import OctreeConfig

  /** The chunk buffers in memory: a `Map` from chunk index to the chunk's bytes. */
  type Buffers = Entries<int, seq<byte>>

  /** `RegionFile.IndexRecord`: where a chunk's bytes start, how many there are, and when they changed. */
  datatype IndexRecord = IndexRecord(offset: int, size: int, timestamp: int)

  /** The `RangeError` a `DataView` getter throws for a field past the end of the buffer. */
  datatype LoadError = RangeError

  /** The table of a fresh container, and after loading an empty file: every record `null`. */
  function NoRecords(): (t: seq<Option<IndexRecord>>)
    ensures |t| == OctreeConfig.RegionTotalChunks()
    ensures forall k :: 0 <= k < |t| ==> t[k].None?
  {
    seq(OctreeConfig.RegionTotalChunks(), _ => None)
  }

  // ---------------------------------------------------------------- the file layout

  /** The 16 bytes of one index record; an absent record is written as two zero 64-bit fields. */
  function RecordBytes(r: Option<IndexRecord>): (b: seq<byte>)
    ensures |b| == OctreeConfig.INDEX_RECORD_SIZE_BYTES
  {
    match r
    case None => LE(0, 8) + LE(0, 8)
    case Some(rec) => LE(rec.offset, 4) + LE(rec.size, 4) + LE(rec.timestamp, 8)
  }

  /** The index table of a file: the records in index order. */
  function HeaderBytes(t: seq<Option<IndexRecord>>): (b: seq<byte>)
    ensures |b| == 16 * |t|
  {
    if t == [] then [] else HeaderBytes(t[..|t| - 1]) + RecordBytes(t[|t| - 1])
  }

  /** The offset after the chunks of the present records of `t`, laid out from `start`. */
  function NextOffset(t: seq<Option<IndexRecord>>, start: int): int
  {
    if t == [] then start
    else NextOffset(t[..|t| - 1], start) + (if t[|t| - 1].Some? then t[|t| - 1].value.size else 0)
  }

  /** A record moved to `offset`; an absent record stays absent. */
  function MovedTo(r: Option<IndexRecord>, offset: int): Option<IndexRecord>
  {
    match r
    case None => None
    case Some(rec) => Some(rec.(offset := offset))
  }

  /** The table after saving: each present record moved to the end of the chunks before it. */
  function Relocated(t: seq<Option<IndexRecord>>, start: int): (r: seq<Option<IndexRecord>>)
    ensures |r| == |t|
  {
    seq(|t|, k requires 0 <= k < |t| => MovedTo(t[k], NextOffset(t[..k], start)))
  }

  /** The stored chunk buffers of the indices below `n`, back to back in index order. */
  function Payload(buffers: Buffers, n: nat): seq<byte>
  {
    if n == 0 then []
    else Payload(buffers, n - 1) + Stored(buffers, n - 1)
  }

  /** The buffer stored under index `i`, or nothing. */
  function Stored(buffers: Buffers, i: int): (b: seq<byte>)
    ensures Get(buffers, i).Some? ==> b == Get(buffers, i).value
    ensures Get(buffers, i).None? ==> b == []
  {
    match Get(buffers, i)
    case Some(b) => b
    case None => []
  }

  /** The total length of all buffers in the map, whatever their keys. */
  function SumLengths(m: Buffers): nat
  {
    if m == [] then 0 else |m[0].1| + SumLengths(m[1..])
  }

  /** The total length of the buffers whose key is not one of the indices below `n`. */
  function SumOutside(m: Buffers, n: nat): nat
  {
    if m == [] then 0
    else (if 0 <= m[0].0 < n then 0 else |m[0].1|) + SumOutside(m[1..], n)
  }

  /**
   * The bytes `serializeFullFile` returns for the table `t` and the buffers:
   * the index table with recomputed offsets, the buffers of indices 0..127,
   * and zeros up to the length computed from all buffers in the map.
   */
  function FileBytes(t: seq<Option<IndexRecord>>, buffers: Buffers): (b: seq<byte>)
    requires |t| == OctreeConfig.RegionTotalChunks() && DistinctKeys(buffers)
    ensures |b| == OctreeConfig.RegionHeaderBytes() + SumLengths(buffers)
    ensures b[..OctreeConfig.RegionHeaderBytes()] == HeaderBytes(Relocated(t, OctreeConfig.RegionHeaderBytes()))
    ensures |Payload(buffers, |t|)| <= SumLengths(buffers)
    ensures b[OctreeConfig.RegionHeaderBytes()..OctreeConfig.RegionHeaderBytes() + |Payload(buffers, |t|)|] == Payload(buffers, |t|)
  {
    var n := OctreeConfig.RegionTotalChunks();
    PayloadAndRest(buffers, n);
    var header := HeaderBytes(Relocated(t, OctreeConfig.RegionHeaderBytes()));
    var b := header + Payload(buffers, n) + Zeros(SumLengths(buffers) - |Payload(buffers, n)|);
    assert b[..|header|] == header;
    assert b[|header|..|header| + |Payload(buffers, n)|] == Payload(buffers, n);
    b
  }

  // ---------------------------------------------------------------- parsing

  /** Record `i` as `parseIndexTable` reads it: kept only when offset and size are both positive. */
  function ParsedRecord(raw: seq<byte>, i: nat): (r: Option<IndexRecord>)
    requires 16 * i + 16 <= |raw|
    ensures r.Some? ==> r.value.offset > 0 && r.value.size > 0
    ensures r.Some? <==> FromLE(raw[16 * i..16 * i + 4]) > 0 && FromLE(raw[16 * i + 4..16 * i + 8]) > 0
  {
    var offset := FromLE(raw[16 * i..16 * i + 4]);
    var size := FromLE(raw[16 * i + 4..16 * i + 8]);
    var timestamp := BigIntToNumber(FromLESigned64(raw[16 * i + 8..16 * i + 16]));
    if offset > 0 && size > 0 then Some(IndexRecord(offset, size, timestamp)) else None
  }

  /**
   * The table after parsing `raw` over the table `prev`: every record whose
   * 16 bytes lie inside the buffer is replaced, the others are kept (the read
   * of the first record that does not fit throws).
   */
  function ParsedTable(raw: seq<byte>, prev: seq<Option<IndexRecord>>): (t: seq<Option<IndexRecord>>)
    requires |prev| == OctreeConfig.RegionTotalChunks()
    ensures |t| == |prev|
  {
    seq(|prev|, i requires 0 <= i < |prev| => if 16 * i + 16 <= |raw| then ParsedRecord(raw, i) else prev[i])
  }

  /** The buffers after `parseIndexTable` stores the slice of every present record of index below `n` into `m`. */
  function ExtractInto(raw: seq<byte>, t: seq<Option<IndexRecord>>, m: Buffers, n: nat): Buffers
    requires n <= |t|
  {
    if n == 0 then m else ExtractOne(raw, ExtractInto(raw, t, m, n - 1), n - 1, t[n - 1])
  }

  /** The buffers after the record `r` of index `i` is read: its slice of the file stored under `i`, if present. */
  function ExtractOne(raw: seq<byte>, m: Buffers, i: int, r: Option<IndexRecord>): Buffers
  {
    if r.None? then m else Set(m, i, Slice(raw, r.value.offset, r.value.offset + r.value.size))
  }

  // ---------------------------------------------------------------- the container

  /** The identifier of a region, `R_<name>_<rx>_<ry>_<rz>`, the numbers in decimal. */
  function RegionID(rName: string, rx: int, ry: int, rz: int): string
  {
    "R_" + rName + "_" + IntToString(rx) + "_" + IntToString(ry) + "_" + IntToString(rz)
  }

  /** A region container object. */
  class RegionFile {
    var regionID: string
    var rName: string
    var rx: int
    var ry: int
    var rz: int
    var indexTable: seq<Option<IndexRecord>>
    var rawData: Option<seq<byte>>
    var isLoaded: bool
    var chunkDataBuffers: Buffers
    var isDirty: bool

    /** The table always has one slot per mini-chunk. */
    ghost predicate Valid()
      reads this
    {
      |indexTable| == OctreeConfig.RegionTotalChunks() && DistinctKeys(chunkDataBuffers)
    }

    /** The fields that name the region, which no method changes. */
    function Identity(): (string, string, int, int, int)
      reads this
    {
      (regionID, rName, rx, ry, rz)
    }

    constructor (rName: string, rx: int, ry: int, rz: int)
      ensures Valid()
      ensures regionID == RegionID(rName, rx, ry, rz)
      ensures this.rName == rName && this.rx == rx && this.ry == ry && this.rz == rz
      ensures indexTable == NoRecords() && rawData.None? && !isLoaded
      ensures chunkDataBuffers == [] && !isDirty
    {
      this.regionID := RegionID(rName, rx, ry, rz);
      this.rName := rName;
      this.rx := rx;
      this.ry := ry;
      this.rz := rz;
      this.indexTable := NoRecords();
      this.rawData := None;
      this.isLoaded := false;
      this.chunkDataBuffers := [];
      this.isDirty := false;
    }

    /**
     * `loadFile(rawDataBuffer)`: a missing or empty file clears the table; any
     * other file is parsed. A file shorter than the index table makes the
     * parse throw, and then the container is not marked loaded.
     */
    method LoadFile(raw: Option<seq<byte>>) returns (r: Result<(), LoadError>)
      requires Valid()
      modifies this
      ensures Valid() && Identity() == old(Identity()) && isDirty == old(isDirty)
      ensures rawData == raw
      ensures raw.None? || |raw.value| == 0 ==>
        r.Ok? && indexTable == NoRecords() && chunkDataBuffers == old(chunkDataBuffers)
      ensures raw.Some? && |raw.value| > 0 ==>
        indexTable == ParsedTable(raw.value, old(indexTable)) &&
        (r.Ok? <==> |raw.value| >= OctreeConfig.RegionHeaderBytes()) &&
        chunkDataBuffers == (if r.Ok? then ExtractInto(raw.value, indexTable, old(chunkDataBuffers), |indexTable|)
                             else old(chunkDataBuffers))
      ensures isLoaded == (r.Ok? || old(isLoaded))
    {
      rawData := raw;
      if raw.Some? && |raw.value| > 0 {
        r := ParseIndexTable();
        if r.Err? {
          return;
        }
      } else {
        indexTable := NoRecords();
        r := Ok(());
      }
      isLoaded := true;
    }

    /** `getChunkData(chunkIndex)`: the stored buffer, or `null` when there is none. */
    method GetChunkData(chunkIndex: int) returns (r: Option<seq<byte>>)
      ensures r == Get(chunkDataBuffers, chunkIndex)
    {
      r := Get(chunkDataBuffers, chunkIndex);
    }

    /**
     * `updateChunkData(chunkIndex, newBuffer, newSize)` at time `now`: the
     * buffer is stored and the chunk's record becomes (0, newSize, now). An
     * index outside the table adds a property to the table array that no
     * other operation reads, so the modelled table is unchanged then.
     */
    method UpdateChunkData(chunkIndex: int, newBuffer: seq<byte>, newSize: int, now: int)
      requires Valid()
      modifies this
      ensures Valid() && Identity() == old(Identity())
      ensures chunkDataBuffers == Set(old(chunkDataBuffers), chunkIndex, newBuffer)
      ensures indexTable == if 0 <= chunkIndex < |indexTable|
                            then old(indexTable)[chunkIndex := Some(IndexRecord(0, newSize, now))]
                            else old(indexTable)
      ensures isDirty && rawData == old(rawData) && isLoaded == old(isLoaded)
    {
      SetDistinct(chunkDataBuffers, chunkIndex, newBuffer);
      chunkDataBuffers := Set(chunkDataBuffers, chunkIndex, newBuffer);
      if 0 <= chunkIndex < |indexTable| {
        indexTable := indexTable[chunkIndex := Some(IndexRecord(0, newSize, now))];
      }
      isDirty := true;
    }

    /**
     * `serializeFullFile()`: the file of the current table and buffers. Every
     * present record's offset is overwritten with its new position, the
     * returned bytes become the raw data, and the container is clean.
     */
    method SerializeFullFile() returns (finalBuffer: array<byte>)
      requires Valid()
      modifies this
      ensures fresh(finalBuffer)
      ensures finalBuffer[..] == FileBytes(old(indexTable), old(chunkDataBuffers))
      ensures indexTable == Relocated(old(indexTable), OctreeConfig.RegionHeaderBytes())
      ensures rawData == Some(finalBuffer[..]) && !isDirty
      ensures Valid() && Identity() == old(Identity())
      ensures chunkDataBuffers == old(chunkDataBuffers) && isLoaded == old(isLoaded)
    {
      var relocated;
      finalBuffer, relocated := Serialize(indexTable, chunkDataBuffers);
      indexTable := relocated;
      rawData := Some(finalBuffer[..]);
      isDirty := false;
    }

    /**
     * `parseIndexTable()`: reads the 128 records, then stores the slice of
     * every present record. A file shorter than the table throws at the first
     * record that does not fit, after the records before it were replaced.
     */
    method ParseIndexTable() returns (r: Result<(), LoadError>)
      requires Valid()
      modifies this
      ensures Valid() && Identity() == old(Identity())
      ensures rawData == old(rawData) && isLoaded == old(isLoaded) && isDirty == old(isDirty)
      ensures old(rawData).None? || |old(rawData).value| == 0 ==>
        r.Ok? && indexTable == old(indexTable) && chunkDataBuffers == old(chunkDataBuffers)
      ensures old(rawData).Some? && |old(rawData).value| > 0 ==>
        var raw := old(rawData).value;
        indexTable == ParsedTable(raw, old(indexTable)) &&
        (r.Ok? <==> |raw| >= OctreeConfig.RegionHeaderBytes()) &&
        chunkDataBuffers == (if r.Ok? then ExtractInto(raw, indexTable, old(chunkDataBuffers), |indexTable|)
                             else old(chunkDataBuffers))
    {
      if rawData.None? || |rawData.value| == 0 {
        return Ok(());
      }
      var raw := rawData.value;
      var table;
      table, r := ReadIndexRecords(raw, indexTable);
      indexTable := table;
      if r.Err? {
        return;
      }
      chunkDataBuffers := ExtractChunkBuffers(raw, table, chunkDataBuffers);
    }
  }

  /** The total length of all stored buffers, summed over the map's values. */
  method TotalChunkSize(m: Buffers) returns (total: nat)
    ensures total == SumLengths(m)
  {
    total := 0;
    var j := 0;
    while j < |m|
      invariant 0 <= j <= |m|
      invariant total + SumLengths(m[j..]) == SumLengths(m)
    {
      assert m[j..][1..] == m[j + 1..];
      total := total + |m[j].1|;
      j := j + 1;
    }
  }

  /** The body of `serializeFullFile` on the table and the buffers: the new file and the relocated table. */
  method Serialize(table: seq<Option<IndexRecord>>, buffers: Buffers) returns (finalBuffer: array<byte>, relocated: seq<Option<IndexRecord>>)
    requires |table| == OctreeConfig.RegionTotalChunks() && DistinctKeys(buffers)
    ensures fresh(finalBuffer)
    ensures finalBuffer[..] == FileBytes(table, buffers)
    ensures relocated == Relocated(table, OctreeConfig.RegionHeaderBytes())
  {
    var headerSize := OctreeConfig.RegionHeaderBytes();
    var totalChunkSize := TotalChunkSize(buffers);
    var totalFileSize := headerSize + totalChunkSize;
    finalBuffer := new byte[totalFileSize](_ => 0);
    assert finalBuffer[..] == Zeros(totalFileSize);
    relocated := WriteIndexTable(finalBuffer, table);
    WriteChunkData(finalBuffer, relocated, buffers);
  }

  /**
   * The first loop of `serializeFullFile` on the zero-filled file buffer:
   * moves every present record of `t` to the end of the chunks before it and
   * writes the records at the start of the buffer.
   */
  method WriteIndexTable(finalBuffer: array<byte>, t: seq<Option<IndexRecord>>) returns (relocated: seq<Option<IndexRecord>>)
    requires |t| == OctreeConfig.RegionTotalChunks()
    requires finalBuffer.Length >= OctreeConfig.RegionHeaderBytes()
    requires finalBuffer[..] == Zeros(finalBuffer.Length)
    modifies finalBuffer
    ensures relocated == Relocated(t, OctreeConfig.RegionHeaderBytes())
    ensures finalBuffer[..] == HeaderBytes(relocated) + Zeros(finalBuffer.Length - OctreeConfig.RegionHeaderBytes())
  {
    var headerSize := OctreeConfig.RegionHeaderBytes();
    ghost var target := Relocated(t, headerSize);
    relocated := t;
    var writeOffset := 0;
    var currentChunkOffset := headerSize;
    var i := 0;
    ghost var header: seq<byte> := [];
    TableNone(finalBuffer[..], t, target);
    while i < OctreeConfig.RegionTotalChunks()
      invariant i <= OctreeConfig.RegionTotalChunks()
      invariant TableWritten(finalBuffer[..], t, target, relocated, i, writeOffset, currentChunkOffset, header)
    {
      relocated, currentChunkOffset, header :=
        WriteTableEntry(finalBuffer, t, target, relocated, i, writeOffset, currentChunkOffset, header);
      writeOffset := writeOffset + 16;
      i := i + 1;
    }
    TableDone(finalBuffer[..], t, target, relocated, i, writeOffset, currentChunkOffset, header);
  }

  /** The loop invariant of `WriteIndexTable`: the records before `i` moved and their bytes written, zeros after them. */
  ghost predicate TableWritten(file: seq<byte>, t: seq<Option<IndexRecord>>, target: seq<Option<IndexRecord>>,
                               relocated: seq<Option<IndexRecord>>, i: nat, writeOffset: int, currentChunkOffset: int,
                               header: seq<byte>)
  {
    writeOffset == 16 * i && TableSoFar(t, target, relocated, i, currentChunkOffset) &&
    header == HeaderBytes(target[..i]) && writeOffset <= |file| && file == header + Zeros(|file| - writeOffset)
  }

  /** Before the loop of `WriteIndexTable`: nothing written yet. */
  lemma TableNone(file: seq<byte>, t: seq<Option<IndexRecord>>, target: seq<Option<IndexRecord>>)
    requires file == Zeros(|file|) && target == Relocated(t, OctreeConfig.RegionHeaderBytes())
    ensures TableWritten(file, t, target, t, 0, 0, OctreeConfig.RegionHeaderBytes(), [])
  {
    assert [] + file == file;
  }

  /**
   * The table of `WriteIndexTable` before record `i`: the records before `i`
   * are moved, the others untouched, and the running offset is the end of the
   * chunks of the records before `i`.
   */
  ghost predicate TableSoFar(t: seq<Option<IndexRecord>>, target: seq<Option<IndexRecord>>,
                             relocated: seq<Option<IndexRecord>>, i: nat, currentChunkOffset: int)
  {
    i <= |t| && target == Relocated(t, OctreeConfig.RegionHeaderBytes()) && |relocated| == |t| &&
    (forall k :: 0 <= k < i ==> relocated[k] == target[k]) &&
    (forall k :: i <= k < |t| ==> relocated[k] == t[k]) &&
    currentChunkOffset == NextOffset(t[..i], OctreeConfig.RegionHeaderBytes())
  }

  /** After the last record, every record is moved and the whole table written. */
  lemma TableDone(file: seq<byte>, t: seq<Option<IndexRecord>>, target: seq<Option<IndexRecord>>,
                  relocated: seq<Option<IndexRecord>>, n: nat, writeOffset: int, currentChunkOffset: int, header: seq<byte>)
    requires n == |t| && TableWritten(file, t, target, relocated, n, writeOffset, currentChunkOffset, header)
    ensures relocated == target && file == HeaderBytes(target) + Zeros(|file| - 16 * n)
  {
    assert target[..|t|] == target;
  }

  /** One turn of the first loop of `serializeFullFile`: record `i` moved and written after the ones before it. */
  method WriteTableEntry(finalBuffer: array<byte>, t: seq<Option<IndexRecord>>, ghost target: seq<Option<IndexRecord>>,
                         relocated: seq<Option<IndexRecord>>, i: nat, writeOffset: nat, currentChunkOffset: int,
                         ghost header: seq<byte>)
    returns (relocated2: seq<Option<IndexRecord>>, currentChunkOffset2: int, ghost header2: seq<byte>)
    requires i < |t| && 16 * |t| <= finalBuffer.Length
    requires TableWritten(finalBuffer[..], t, target, relocated, i, writeOffset, currentChunkOffset, header)
    modifies finalBuffer
    ensures TableWritten(finalBuffer[..], t, target, relocated2, i + 1, writeOffset + 16, currentChunkOffset2, header2)
  {
    var record := relocated[i];
    var moved := MovedTo(record, currentChunkOffset);
    assert record == t[i] && moved == target[i];
    AppendRecord(finalBuffer, writeOffset, header, moved);
    header2 := header + RecordBytes(moved);
    relocated2, currentChunkOffset2 := relocated, currentChunkOffset;
    if record.Some? {
      relocated2 := relocated[i := moved];
      currentChunkOffset2 := currentChunkOffset + record.value.size;
    }
    TableStep(finalBuffer[..], t, target, relocated, relocated2, i, writeOffset, currentChunkOffset, currentChunkOffset2,
              header, header2);
  }

  /** The invariant of `WriteIndexTable` after record `i` is moved and its bytes follow those before it. */
  lemma TableStep(file: seq<byte>, t: seq<Option<IndexRecord>>, target: seq<Option<IndexRecord>>,
                  relocated: seq<Option<IndexRecord>>, relocated2: seq<Option<IndexRecord>>, i: nat,
                  writeOffset: nat, currentChunkOffset: int, currentChunkOffset2: int, header: seq<byte>, header2: seq<byte>)
    requires i < |t| && writeOffset == 16 * i && writeOffset + 16 <= |file|
    requires TableSoFar(t, target, relocated, i, currentChunkOffset) && header == HeaderBytes(target[..i])
    requires header2 == header + RecordBytes(target[i]) && file == header2 + Zeros(|file| - |header| - 16)
    requires t[i].None? ==> relocated2 == relocated && currentChunkOffset2 == currentChunkOffset
    requires t[i].Some? ==> relocated2 == relocated[i := target[i]] && currentChunkOffset2 == currentChunkOffset + t[i].value.size
    ensures TableWritten(file, t, target, relocated2, i + 1, writeOffset + 16, currentChunkOffset2, header2)
  {
    HeaderStep(target, i);
    NextOffsetStep(t, i, OctreeConfig.RegionHeaderBytes());
    assert t[i].None? ==> target[i].None?;
    MergeStep(t, target, relocated, relocated2, i);
  }

  /**
   * The second loop of `serializeFullFile`: copies the buffers of indices
   * 0..127 back to back after the index table.
   */
  method WriteChunkData(finalBuffer: array<byte>, t: seq<Option<IndexRecord>>, buffers: Buffers)
    requires DistinctKeys(buffers)
    requires finalBuffer.Length == 16 * |t| + SumLengths(buffers)
    requires finalBuffer[..] == HeaderBytes(t) + Zeros(SumLengths(buffers))
    modifies finalBuffer
    ensures |Payload(buffers, OctreeConfig.RegionTotalChunks())| <= SumLengths(buffers) &&
      finalBuffer[..] == HeaderBytes(t) + Payload(buffers, OctreeConfig.RegionTotalChunks()) +
        Zeros(SumLengths(buffers) - |Payload(buffers, OctreeConfig.RegionTotalChunks())|)
  {
    ghost var header := HeaderBytes(t);
    CopiedNone(finalBuffer[..], header, buffers);
    ghost var payload := CopyChunks(finalBuffer, 16 * |t|, header, buffers);
    CopiedAll(finalBuffer[..], header, buffers, OctreeConfig.RegionTotalChunks(), finalBuffer.Length - SumOutside(buffers, OctreeConfig.RegionTotalChunks()), payload);
  }

  /** The loop of `WriteChunkData`. */
  method CopyChunks(finalBuffer: array<byte>, start: nat, ghost header: seq<byte>, buffers: Buffers) returns (ghost payload: seq<byte>)
    requires CopiedSoFar(finalBuffer[..], header, buffers, 0, start, [])
    modifies finalBuffer
    ensures CopiedSoFar(finalBuffer[..], header, buffers, OctreeConfig.RegionTotalChunks(),
      finalBuffer.Length - SumOutside(buffers, OctreeConfig.RegionTotalChunks()), payload)
  {
    var writeOffset := start;
    payload := [];
    var i := 0;
    while i < OctreeConfig.RegionTotalChunks()
      invariant 0 <= i <= OctreeConfig.RegionTotalChunks()
      invariant CopiedSoFar(finalBuffer[..], header, buffers, i, writeOffset, payload)
    {
      writeOffset, payload := CopyChunk(finalBuffer, writeOffset, header, payload, buffers, i);
      i := i + 1;
    }
  }

  /** The loop invariant of `WriteChunkData`: the buffers of the indices below `i` follow the header, zeros after them. */
  ghost predicate CopiedSoFar(file: seq<byte>, header: seq<byte>, buffers: Buffers, i: nat, pos: int, payload: seq<byte>)
  {
    DistinctKeys(buffers) && payload == Payload(buffers, i) &&
    pos == |header| + |payload| && pos + SumOutside(buffers, i) == |file| &&
    file == header + payload + Zeros(|file| - pos)
  }

  /** Before the loop of `WriteChunkData`: nothing copied yet. */
  lemma CopiedNone(file: seq<byte>, header: seq<byte>, buffers: Buffers)
    requires DistinctKeys(buffers)
    requires file == header + Zeros(SumLengths(buffers))
    ensures CopiedSoFar(file, header, buffers, 0, |header|, [])
  {
    SumOutsideNone(buffers);
    assert header + [] == header;
  }

  /** After the loop of `WriteChunkData`: the zeros left over are those of the buffers outside the indices copied. */
  lemma CopiedAll(file: seq<byte>, header: seq<byte>, buffers: Buffers, n: nat, pos: int, payload: seq<byte>)
    requires CopiedSoFar(file, header, buffers, n, pos, payload)
    requires |file| == |header| + SumLengths(buffers)
    ensures |Payload(buffers, n)| <= SumLengths(buffers)
    ensures file == header + Payload(buffers, n) + Zeros(SumLengths(buffers) - |Payload(buffers, n)|)
  {
    PayloadAndRest(buffers, n);
  }

  /** One turn of the loop of `WriteChunkData`: the buffer of index `i`, if any, copied after the ones before it. */
  method CopyChunk(a: array<byte>, pos: nat, ghost header: seq<byte>, ghost payload: seq<byte>, buffers: Buffers, i: nat)
    returns (next: nat, ghost payload': seq<byte>)
    requires CopiedSoFar(a[..], header, buffers, i, pos, payload)
    modifies a
    ensures CopiedSoFar(a[..], header, buffers, i + 1, next, payload')
  {
    SumOutsideStep(buffers, i);
    var entry := Get(buffers, i);
    if entry.Some? {
      var buffer := entry.value;
      AppendBytes(a, pos, header + payload, buffer);
      assert header + payload + buffer == header + (payload + buffer);
      next, payload' := pos + |buffer|, payload + buffer;
    } else {
      assert payload + [] == payload;
      next, payload' := pos, payload;
    }
  }

  /** The first loop of `parseIndexTable`: the records of `raw` over `prev`, or the `RangeError` of a short file. */
  method ReadIndexRecords(raw: seq<byte>, prev: seq<Option<IndexRecord>>) returns (table: seq<Option<IndexRecord>>, r: Result<(), LoadError>)
    requires |prev| == OctreeConfig.RegionTotalChunks()
    ensures table == ParsedTable(raw, prev)
    ensures r.Ok? <==> |raw| >= OctreeConfig.RegionHeaderBytes()
  {
    table := prev;
    var readOffset := 0;
    var i := 0;
    while i < OctreeConfig.RegionTotalChunks()
      invariant 0 <= i <= OctreeConfig.RegionTotalChunks() && readOffset == 16 * i && readOffset <= |raw|
      invariant |table| == |prev|
      invariant forall k :: 0 <= k < i ==> table[k] == ParsedRecord(raw, k)
      invariant forall k :: i <= k < |prev| ==> table[k] == prev[k]
    {
      if readOffset + 4 > |raw| {
        assert table == ParsedTable(raw, prev);
        return table, Err(RangeError);
      }
      var offset := FromLE(raw[readOffset..readOffset + 4]);
      readOffset := readOffset + 4;
      if readOffset + 4 > |raw| {
        assert table == ParsedTable(raw, prev);
        return table, Err(RangeError);
      }
      var size := FromLE(raw[readOffset..readOffset + 4]);
      readOffset := readOffset + 4;
      if readOffset + 8 > |raw| {
        assert table == ParsedTable(raw, prev);
        return table, Err(RangeError);
      }
      var timestamp := BigIntToNumber(FromLESigned64(raw[readOffset..readOffset + 8]));
      readOffset := readOffset + 8;
      RecordOfFields(raw, i, readOffset - 16, offset, size, timestamp);
      if offset > 0 && size > 0 {
        table := table[i := Some(IndexRecord(offset, size, timestamp))];
      } else {
        table := table[i := None];
      }
      i := i + 1;
    }
    assert table == ParsedTable(raw, prev);
    r := Ok(());
  }

  /** Record `i` read field by field from its 16 bytes at `pos`. */
  lemma RecordOfFields(raw: seq<byte>, i: nat, pos: nat, offset: int, size: int, timestamp: int)
    requires pos == 16 * i && pos + 16 <= |raw|
    requires offset == FromLE(raw[pos..pos + 4]) && size == FromLE(raw[pos + 4..pos + 8])
    requires timestamp == BigIntToNumber(FromLESigned64(raw[pos + 8..pos + 16]))
    ensures ParsedRecord(raw, i) == if offset > 0 && size > 0 then Some(IndexRecord(offset, size, timestamp)) else None
  {
  }

  /** The second loop of `parseIndexTable`: the slice of every present record stored under its index. */
  method ExtractChunkBuffers(raw: seq<byte>, table: seq<Option<IndexRecord>>, buffers: Buffers)
    returns (result: Buffers)
    requires |table| == OctreeConfig.RegionTotalChunks() && DistinctKeys(buffers)
    ensures result == ExtractInto(raw, table, buffers, |table|)
    ensures DistinctKeys(result)
  {
    result := buffers;
    var i := 0;
    while i < OctreeConfig.RegionTotalChunks()
      invariant 0 <= i <= OctreeConfig.RegionTotalChunks()
      invariant result == ExtractInto(raw, table, buffers, i) && DistinctKeys(result)
    {
      var record := table[i];
      if record.Some? {
        var chunkBuffer := Slice(raw, record.value.offset, record.value.offset + record.value.size);
        SetDistinct(result, i, chunkBuffer);
        result := Set(result, i, chunkBuffer);
      }
      i := i + 1;
    }
  }

  /** `Uint8Array.set(src, pos)` on the file buffer. */
  method SetBytes(a: array<byte>, pos: nat, src: seq<byte>)
    requires pos + |src| <= a.Length
    modifies a
    ensures a[..] == old(a[..])[..pos] + src + old(a[..])[pos + |src|..]
  {
    var j := 0;
    while j < |src|
      invariant 0 <= j <= |src|
      invariant a[..] == old(a[..])[..pos] + src[..j] + old(a[..])[pos + j..]
    {
      a[pos + j] := src[j];
      j := j + 1;
    }
  }

  /** The three `DataView` setters of one index record, or the two zero fields of an absent one. */
  method WriteRecord(a: array<byte>, pos: nat, r: Option<IndexRecord>)
    requires pos + 16 <= a.Length
    modifies a
    ensures a[..] == old(a[..])[..pos] + RecordBytes(r) + old(a[..])[pos + 16..]
  {
    match r {
      case None =>
        SetTwo(a, pos, LE(0, 8), LE(0, 8));
      case Some(rec) =>
        ghost var a0 := a[..];
        SetTwo(a, pos, LE(rec.offset, 4), LE(rec.size, 4));
        SetBytes(a, pos + 8, LE(rec.timestamp, 8));
        SpliceAppend(a0, pos, LE(rec.offset, 4) + LE(rec.size, 4), LE(rec.timestamp, 8));
    }
  }

  /** Two setters at adjacent positions write both byte strings. */
  method SetTwo(a: array<byte>, pos: nat, x: seq<byte>, y: seq<byte>)
    requires pos + |x| + |y| <= a.Length
    modifies a
    ensures a[..] == old(a[..])[..pos] + (x + y) + old(a[..])[pos + |x| + |y|..]
  {
    ghost var a0 := a[..];
    SetBytes(a, pos, x);
    SetBytes(a, pos + |x|, y);
    SpliceAppend(a0, pos, x, y);
  }


  /** Writes a record where the zero tail of the buffer starts. */
  method AppendRecord(a: array<byte>, pos: nat, ghost prefix: seq<byte>, r: Option<IndexRecord>)
    requires pos == |prefix| && pos + 16 <= a.Length
    requires a[..] == prefix + Zeros(a.Length - |prefix|)
    modifies a
    ensures a[..] == prefix + RecordBytes(r) + Zeros(a.Length - |prefix| - 16)
  {
    WriteRecord(a, pos, r);
    ZerosSplice(prefix, RecordBytes(r), a.Length - |prefix|);
  }

  /** Copies `x` where the zero tail of the buffer starts. */
  method AppendBytes(a: array<byte>, pos: nat, ghost prefix: seq<byte>, x: seq<byte>)
    requires pos == |prefix| && pos + |x| <= a.Length
    requires a[..] == prefix + Zeros(a.Length - |prefix|)
    modifies a
    ensures a[..] == prefix + x + Zeros(a.Length - |prefix| - |x|)
  {
    SetBytes(a, pos, x);
    ZerosSplice(prefix, x, a.Length - |prefix|);
  }

  /** Two writes at adjacent positions are one write of both byte strings. */
  lemma SpliceAppend(s: seq<byte>, p: nat, x: seq<byte>, y: seq<byte>)
    requires p + |x| + |y| <= |s|
    ensures var b := s[..p] + x + s[p + |x|..];
      b[..p + |x|] + y + b[p + |x| + |y|..] == s[..p] + (x + y) + s[p + |x| + |y|..]
  {
    var b := s[..p] + x + s[p + |x|..];
    assert b[..p + |x|] == s[..p] + x;
    assert b[p + |x| + |y|..] == s[p + |x| + |y|..];
  }

  /** Writing `x` at the start of the zero tail of `prefix + Zeros(n)`. */
  lemma ZerosSplice(prefix: seq<byte>, x: seq<byte>, n: nat)
    requires |x| <= n
    ensures var s := prefix + Zeros(n);
      s[..|prefix|] + x + s[|prefix| + |x|..] == prefix + x + Zeros(n - |x|)
  {
    var s := prefix + Zeros(n);
    assert s[..|prefix|] == prefix;
    assert s[|prefix| + |x|..] == Zeros(n - |x|);
  }

  /** The table of `WriteIndexTable` after one more record: the records before `i + 1` moved, the rest as they were. */
  lemma MergeStep(t: seq<Option<IndexRecord>>, target: seq<Option<IndexRecord>>,
                  before: seq<Option<IndexRecord>>, after: seq<Option<IndexRecord>>, i: nat)
    requires i < |t| == |target| == |before|
    requires forall k :: 0 <= k < i ==> before[k] == target[k]
    requires forall k :: i <= k < |t| ==> before[k] == t[k]
    requires t[i].None? ==> target[i].None? && after == before
    requires t[i].Some? ==> after == before[i := target[i]]
    ensures |after| == |t|
    ensures forall k :: 0 <= k < i + 1 ==> after[k] == target[k]
    ensures forall k :: i + 1 <= k < |t| ==> after[k] == t[k]
  {
  }

  /** The index table of one more record. */
  lemma HeaderStep(t: seq<Option<IndexRecord>>, i: nat)
    requires i < |t|
    ensures HeaderBytes(t[..i + 1]) == HeaderBytes(t[..i]) + RecordBytes(t[i])
  {
    assert t[..i + 1][..i] == t[..i];
  }

  /** The running offset after one more record. */
  lemma NextOffsetStep(t: seq<Option<IndexRecord>>, i: nat, start: int)
    requires i < |t|
    ensures NextOffset(t[..i + 1], start) == NextOffset(t[..i], start) + (if t[i].Some? then t[i].value.size else 0)
  {
    assert t[..i + 1][..i] == t[..i];
  }

  // ---------------------------------------------------------------- properties

  /** With no index excluded, the buffers outside are all of them. */
  lemma {:induction false} SumOutsideNone(m: Buffers)
    ensures SumOutside(m, 0) == SumLengths(m)
  {
    if m != [] {
      SumOutsideNone(m[1..]);
    }
  }

  /** Excluding one more index takes that index's buffer, if any, off the total outside. */
  lemma {:induction false} SumOutsideStep(m: Buffers, n: nat)
    requires DistinctKeys(m)
    ensures SumOutside(m, n) == SumOutside(m, n + 1) + |Stored(m, n)|
  {
    if m != [] {
      SumOutsideStep(m[1..], n);
    }
  }

  /** The buffers of indices below `n` plus those of all other keys make up the total. */
  lemma {:induction false} PayloadAndRest(buffers: Buffers, n: nat)
    requires DistinctKeys(buffers)
    ensures |Payload(buffers, n)| + SumOutside(buffers, n) == SumLengths(buffers)
    ensures |Payload(buffers, n)| <= SumLengths(buffers)
  {
    if n == 0 {
      SumOutsideNone(buffers);
    } else {
      PayloadAndRest(buffers, n - 1);
      SumOutsideStep(buffers, n - 1);
      assert |Payload(buffers, n)| == |Payload(buffers, n - 1)| + |Stored(buffers, n - 1)|;
    }
  }

  /** The payload of fewer indices is a prefix of the payload of more. */
  lemma {:induction false} PayloadPrefix(buffers: Buffers, n: nat, m: nat)
    requires n <= m
    ensures |Payload(buffers, n)| <= |Payload(buffers, m)|
    ensures Payload(buffers, m)[..|Payload(buffers, n)|] == Payload(buffers, n)
    decreases m - n
  {
    if n < m {
      PayloadPrefix(buffers, n, m - 1);
      PrefixOfAppend(Payload(buffers, n), Payload(buffers, m - 1), Stored(buffers, m - 1));
    }
  }

  /** A prefix stays a prefix when more bytes are appended. */
  lemma PrefixOfAppend(p: seq<byte>, q: seq<byte>, s: seq<byte>)
    requires |p| <= |q| && q[..|p|] == p
    ensures |p| <= |q + s| && (q + s)[..|p|] == p
  {
    assert (q + s)[..|p|] == q[..|p|];
  }

  /** The bytes of record `k` sit at `16 * k` in the index table. */
  lemma {:induction false} HeaderLayout(t: seq<Option<IndexRecord>>, k: nat)
    requires k < |t|
    ensures HeaderBytes(t)[16 * k..16 * k + 16] == RecordBytes(t[k])
  {
    var init := t[..|t| - 1];
    var front, last := HeaderBytes(init), RecordBytes(t[|t| - 1]);
    assert HeaderBytes(t) == front + last;
    if k < |t| - 1 {
      HeaderLayout(init, k);
      assert init[k] == t[k];
      SliceOfFront(front, last, 16 * k, 16 * k + 16);
    } else {
      assert (front + last)[|front|..] == last;
    }
  }

  /** A slice inside the first part of a concatenation is a slice of that part. */
  lemma SliceOfFront(front: seq<byte>, back: seq<byte>, i: nat, j: nat)
    requires i <= j <= |front|
    ensures (front + back)[i..j] == front[i..j]
  {
  }

  /** A record fits its fields: offset and size are positive 32-bit values, the timestamp an integer `Number` holds exactly. */
  predicate Fits(r: Option<IndexRecord>)
  {
    r.Some? ==>
      0 < r.value.offset < TWO_POW_32 && 0 < r.value.size < TWO_POW_32 &&
      -TWO_POW_53 <= r.value.timestamp <= TWO_POW_53
  }

  /** The fields of the 16 bytes written for a record that fits read back as its fields; those of no record as zeros. */
  lemma RecordFields(r: Option<IndexRecord>)
    requires Fits(r)
    ensures var b := RecordBytes(r);
      (r.None? ==> FromLE(b[0..4]) == 0) &&
      (r.Some? ==> FromLE(b[0..4]) == r.value.offset && FromLE(b[4..8]) == r.value.size &&
                   FromLESigned64(b[8..16]) == r.value.timestamp)
  {
    if r.None? {
      AbsentFields();
    } else {
      PresentFields(r.value);
    }
  }

  /** The 16 bytes of no record start with a zero offset. */
  lemma AbsentFields()
    ensures FromLE(RecordBytes(None)[0..4]) == 0
  {
    var b := RecordBytes(None);
    ZeroField(8);
    ZeroField(4);
    assert b[0..4] == Zeros(4);
  }

  /** The fields of the 16 bytes written for a record that fits read back as its fields. */
  lemma PresentFields(rec: IndexRecord)
    requires Fits(Some(rec))
    ensures var b := RecordBytes(Some(rec));
      FromLE(b[0..4]) == rec.offset && FromLE(b[4..8]) == rec.size && FromLESigned64(b[8..16]) == rec.timestamp
  {
    Pow256Values();
    ThreeFields(LE(rec.offset, 4), LE(rec.size, 4), LE(rec.timestamp, 8));
    FieldRoundTrip(rec.offset, 4);
    FieldRoundTrip(rec.size, 4);
    Signed64RoundTrip(rec.timestamp);
  }

  /** The fields of a record are the slices of its bytes at 0, 4 and 8. */
  lemma ThreeFields(o: seq<byte>, z: seq<byte>, ts: seq<byte>)
    requires |o| == 4 && |z| == 4 && |ts| == 8
    ensures (o + z + ts)[0..4] == o && (o + z + ts)[4..8] == z && (o + z + ts)[8..16] == ts
  {
  }

  /** Parsing the 16 bytes written for a record that fits gives the record back; zeros parse as no record. */
  lemma RecordReadBack(raw: seq<byte>, i: nat, r: Option<IndexRecord>)
    requires 16 * i + 16 <= |raw| && raw[16 * i..16 * i + 16] == RecordBytes(r)
    requires Fits(r)
    ensures ParsedRecord(raw, i) == r
  {
    RecordSlices(raw, i, RecordBytes(r));
    RecordFields(r);
  }

  /** The three fields of record `i` of `raw` are the slices of its 16 bytes. */
  lemma RecordSlices(raw: seq<byte>, i: nat, b: seq<byte>)
    requires 16 * i + 16 <= |raw| && raw[16 * i..16 * i + 16] == b
    ensures raw[16 * i..16 * i + 4] == b[0..4]
    ensures raw[16 * i + 4..16 * i + 8] == b[4..8]
    ensures raw[16 * i + 8..16 * i + 16] == b[8..16]
  {
    SubSlice(raw, 16 * i, 16 * i + 16, 0, 4);
    SubSlice(raw, 16 * i, 16 * i + 16, 4, 8);
    SubSlice(raw, 16 * i, 16 * i + 16, 8, 16);
  }

  /** A slice of a slice is a slice of the whole. */
  lemma SubSlice(s: seq<byte>, a: nat, b: nat, c: nat, d: nat)
    requires a <= b <= |s| && c <= d <= b - a
    ensures s[a..b][c..d] == s[a + c..a + d]
  {
    assert forall j :: 0 <= j < d - c ==> s[a..b][c..d][j] == s[a + c + j];
  }

  /** A buffer that starts with the index table of records that fit parses back to that table, whatever came before. */
  lemma HeaderReadBack(raw: seq<byte>, t: seq<Option<IndexRecord>>, prev: seq<Option<IndexRecord>>)
    requires |t| == |prev| == OctreeConfig.RegionTotalChunks()
    requires |raw| >= OctreeConfig.RegionHeaderBytes() && raw[..OctreeConfig.RegionHeaderBytes()] == HeaderBytes(t)
    requires forall k :: 0 <= k < |t| ==> Fits(t[k])
    ensures ParsedTable(raw, prev) == t
  {
    forall k | 0 <= k < |t|
      ensures ParsedTable(raw, prev)[k] == t[k]
    {
      TableRecordReadBack(raw, t, k);
    }
  }

  /** Record `k` of a buffer that starts with the index table parses back to `t[k]`. */
  lemma TableRecordReadBack(raw: seq<byte>, t: seq<Option<IndexRecord>>, k: nat)
    requires k < |t| == OctreeConfig.RegionTotalChunks() && Fits(t[k])
    requires |raw| >= OctreeConfig.RegionHeaderBytes() && raw[..OctreeConfig.RegionHeaderBytes()] == HeaderBytes(t)
    ensures 16 * k + 16 <= |raw| && ParsedRecord(raw, k) == t[k]
  {
    HeaderLayout(t, k);
    SubSlice(raw, 0, OctreeConfig.RegionHeaderBytes(), 16 * k, 16 * k + 16);
    RecordReadBack(raw, k, t[k]);
  }

  /**
   * The table and the buffers agree: a record is present exactly where a
   * buffer of index below 128 is stored, and its size is that buffer's length.
   */
  predicate Consistent(t: seq<Option<IndexRecord>>, buffers: Buffers)
  {
    forall k :: 0 <= k < |t| ==>
      (t[k].Some? <==> Has(buffers, k)) &&
      (t[k].Some? ==> t[k].value.size == |Get(buffers, k).value|)
  }

  /** With a consistent table, the chunk of record `k` is laid out right after the buffers of the indices before it. */
  lemma {:induction false} OffsetsFollowPayload(t: seq<Option<IndexRecord>>, buffers: Buffers, k: nat)
    requires k <= |t| && Consistent(t, buffers)
    ensures NextOffset(t[..k], OctreeConfig.RegionHeaderBytes()) == OctreeConfig.RegionHeaderBytes() + |Payload(buffers, k)|
  {
    if k > 0 {
      OffsetsFollowPayload(t, buffers, k - 1);
      NextOffsetStep(t, k - 1, OctreeConfig.RegionHeaderBytes());
    }
  }

  /** The buffer of index `k` occupies its own stretch of the payload of the indices below `n`. */
  lemma PayloadSlot(buffers: Buffers, k: nat, n: nat, b: seq<byte>)
    requires k < n && Get(buffers, k) == Some(b)
    ensures |Payload(buffers, k)| + |b| <= |Payload(buffers, n)|
    ensures Payload(buffers, n)[|Payload(buffers, k)|..|Payload(buffers, k)| + |b|] == b
  {
    PayloadPrefix(buffers, k + 1, n);
    var p, q := Payload(buffers, k), Payload(buffers, k + 1);
    assert q == p + b;
    assert Payload(buffers, n)[..|q|] == q;
    assert Payload(buffers, n)[|p|..|q|] == q[|p|..];
  }

  /** Which buffer `parseIndexTable` leaves under each index: the slice of a present record, or what was stored before. */
  lemma {:induction false} ExtractIntoGet(raw: seq<byte>, t: seq<Option<IndexRecord>>, m: Buffers, n: nat, j: int)
    requires n <= |t|
    ensures Get(ExtractInto(raw, t, m, n), j) ==
      if 0 <= j < n && t[j].Some? then Some(Slice(raw, t[j].value.offset, t[j].value.offset + t[j].value.size))
      else Get(m, j)
  {
    if n > 0 {
      ExtractIntoGet(raw, t, m, n - 1, j);
      ExtractOneGet(raw, ExtractInto(raw, t, m, n - 1), n - 1, t[n - 1], j);
    }
  }

  /** Reading one record changes what `get` finds under its index only. */
  lemma ExtractOneGet(raw: seq<byte>, m: Buffers, i: int, r: Option<IndexRecord>, j: int)
    ensures Get(ExtractOne(raw, m, i, r), j) ==
      if j == i && r.Some? then Some(Slice(raw, r.value.offset, r.value.offset + r.value.size)) else Get(m, j)
  {
    if r.Some? {
      GetSet(m, i, Slice(raw, r.value.offset, r.value.offset + r.value.size), j);
    }
  }

  /**
   * Saving and loading again: when the table and the buffers agree, every
   * buffer is non-empty, the timestamps are integers a double holds exactly
   * (every `Date.now()` is) and the file stays below
   * 4 GiB, parsing the saved file yields the relocated table, and the buffers
   * extracted from it are the saved ones, whatever the container held before.
   */
  lemma SaveThenLoad(t: seq<Option<IndexRecord>>, buffers: Buffers, prev: seq<Option<IndexRecord>>, m: Buffers)
    requires |t| == |prev| == OctreeConfig.RegionTotalChunks() && DistinctKeys(buffers)
    requires Consistent(t, buffers)
    requires forall k :: 0 <= k < |t| && t[k].Some? ==>
      t[k].value.size > 0 && -TWO_POW_53 <= t[k].value.timestamp <= TWO_POW_53
    requires OctreeConfig.RegionHeaderBytes() + SumLengths(buffers) < TWO_POW_32
    ensures |FileBytes(t, buffers)| >= OctreeConfig.RegionHeaderBytes()
    ensures ParsedTable(FileBytes(t, buffers), prev) == Relocated(t, OctreeConfig.RegionHeaderBytes())
    ensures forall k :: 0 <= k < |t| && t[k].Some? ==>
      Get(ExtractInto(FileBytes(t, buffers), Relocated(t, OctreeConfig.RegionHeaderBytes()), m, |t|), k) == Get(buffers, k)
  {
    var file := FileBytes(t, buffers);
    var relocated := Relocated(t, OctreeConfig.RegionHeaderBytes());
    AllSlotsFit(t, buffers);
    HeaderReadBack(file, relocated, prev);
    forall k | 0 <= k < |t| && t[k].Some?
      ensures Get(ExtractInto(file, relocated, m, |t|), k) == Get(buffers, k)
    {
      SlotExtracted(t, buffers, m, k);
    }
  }

  /** Every relocated record of a consistent table fits its fields. */
  lemma AllSlotsFit(t: seq<Option<IndexRecord>>, buffers: Buffers)
    requires |t| == OctreeConfig.RegionTotalChunks() && DistinctKeys(buffers)
    requires Consistent(t, buffers)
    requires forall k :: 0 <= k < |t| && t[k].Some? ==>
      t[k].value.size > 0 && -TWO_POW_53 <= t[k].value.timestamp <= TWO_POW_53
    requires OctreeConfig.RegionHeaderBytes() + SumLengths(buffers) < TWO_POW_32
    ensures forall k :: 0 <= k < |t| ==> Fits(Relocated(t, OctreeConfig.RegionHeaderBytes())[k])
  {
    forall k | 0 <= k < |t|
      ensures Fits(Relocated(t, OctreeConfig.RegionHeaderBytes())[k])
    {
      SlotReadBack(t, buffers, k);
    }
  }

  /** Extracting the saved file over any map stores the buffer of a present record back under its index. */
  lemma SlotExtracted(t: seq<Option<IndexRecord>>, buffers: Buffers, m: Buffers, k: nat)
    requires |t| == OctreeConfig.RegionTotalChunks() && DistinctKeys(buffers)
    requires Consistent(t, buffers) && k < |t| && t[k].Some?
    requires t[k].value.size > 0 && -TWO_POW_53 <= t[k].value.timestamp <= TWO_POW_53
    requires OctreeConfig.RegionHeaderBytes() + SumLengths(buffers) < TWO_POW_32
    ensures Get(ExtractInto(FileBytes(t, buffers), Relocated(t, OctreeConfig.RegionHeaderBytes()), m, |t|), k) == Get(buffers, k)
  {
    SlotReadBack(t, buffers, k);
    ExtractIntoGet(FileBytes(t, buffers), Relocated(t, OctreeConfig.RegionHeaderBytes()), m, |t|, k);
  }

  /** The relocated record `k` of a consistent table starts right after the buffers before it and fits its fields. */
  lemma SlotFits(t: seq<Option<IndexRecord>>, buffers: Buffers, k: nat)
    requires |t| == OctreeConfig.RegionTotalChunks() && DistinctKeys(buffers)
    requires Consistent(t, buffers) && k < |t|
    requires t[k].Some? ==> t[k].value.size > 0 && -TWO_POW_53 <= t[k].value.timestamp <= TWO_POW_53
    requires OctreeConfig.RegionHeaderBytes() + SumLengths(buffers) < TWO_POW_32
    ensures Fits(Relocated(t, OctreeConfig.RegionHeaderBytes())[k])
    ensures t[k].Some? ==>
      Relocated(t, OctreeConfig.RegionHeaderBytes())[k].value.offset == OctreeConfig.RegionHeaderBytes() + |Payload(buffers, k)| &&
      |Payload(buffers, k)| + t[k].value.size <= |Payload(buffers, |t|)|
  {
    OffsetsFollowPayload(t, buffers, k);
    PayloadAndRest(buffers, |t|);
    if t[k].Some? {
      PayloadSlot(buffers, k, |t|, Get(buffers, k).value);
    }
  }

  /** The relocated record `k` of a saved file points at the bytes of buffer `k`. */
  lemma SlotReadBack(t: seq<Option<IndexRecord>>, buffers: Buffers, k: nat)
    requires |t| == OctreeConfig.RegionTotalChunks() && DistinctKeys(buffers)
    requires Consistent(t, buffers) && k < |t|
    requires t[k].Some? ==> t[k].value.size > 0 && -TWO_POW_53 <= t[k].value.timestamp <= TWO_POW_53
    requires OctreeConfig.RegionHeaderBytes() + SumLengths(buffers) < TWO_POW_32
    ensures Fits(Relocated(t, OctreeConfig.RegionHeaderBytes())[k])
    ensures t[k].Some? ==>
      var rec := Relocated(t, OctreeConfig.RegionHeaderBytes())[k].value;
      Slice(FileBytes(t, buffers), rec.offset, rec.offset + rec.size) == Get(buffers, k).value
  {
    SlotFits(t, buffers, k);
    if t[k].Some? {
      var rec := Relocated(t, OctreeConfig.RegionHeaderBytes())[k].value;
      var b := Get(buffers, k).value;
      assert rec.size == t[k].value.size == |b|;
      SavedBuffer(FileBytes(t, buffers), buffers, |t|, k, b, rec.offset, rec.size);
    }
  }

  /** In the saved file, buffer `k` follows the index table and the buffers of the indices before it. */
  lemma SavedBuffer(file: seq<byte>, buffers: Buffers, n: nat, k: nat, b: seq<byte>, offset: int, size: int)
    requires k < n && Get(buffers, k) == Some(b)
    requires OctreeConfig.RegionHeaderBytes() + |Payload(buffers, n)| <= |file|
    requires file[OctreeConfig.RegionHeaderBytes()..OctreeConfig.RegionHeaderBytes() + |Payload(buffers, n)|] == Payload(buffers, n)
    requires offset == OctreeConfig.RegionHeaderBytes() + |Payload(buffers, k)| && size == |b|
    ensures Slice(file, offset, offset + size) == b
  {
    PayloadSlot(buffers, k, n, b);
    SliceWithin(file, OctreeConfig.RegionHeaderBytes(), Payload(buffers, n), |Payload(buffers, k)|, b, offset, offset + size);
  }

  /** A stretch of a stretch of the file, read with `slice`. */
  lemma SliceWithin(file: seq<byte>, h: nat, p: seq<byte>, start: nat, b: seq<byte>, begin: int, end: int)
    requires h + |p| <= |file| && file[h..h + |p|] == p
    requires start + |b| <= |p| && p[start..start + |b|] == b
    requires begin == h + start && end == begin + |b|
    ensures Slice(file, begin, end) == b
  {
    SubSlice(file, h, h + |p|, start, start + |b|);
  }

  /** Saving changes only offsets: the same records are present, with their sizes and timestamps. */
  lemma RelocatedKeepsRecords(t: seq<Option<IndexRecord>>, start: int, k: nat)
    requires k < |t|
    ensures Relocated(t, start)[k].Some? <==> t[k].Some?
    ensures t[k].Some? ==> Relocated(t, start)[k].value == t[k].value.(offset := NextOffset(t[..k], start))
  {
  }

  /** Absent records move the running offset by nothing. */
  lemma {:induction false} NextOffsetSkipsAbsent(t: seq<Option<IndexRecord>>, start: int, j: nat, k: nat)
    requires j <= k <= |t|
    requires forall i :: j <= i < k ==> t[i].None?
    ensures NextOffset(t[..k], start) == NextOffset(t[..j], start)
    decreases k - j
  {
    if j < k {
      NextOffsetSkipsAbsent(t, start, j, k - 1);
      NextOffsetStep(t, k - 1, start);
    }
  }

  /** Saving gives the first present record the offset right after the index table. */
  lemma FirstRecordOffset(t: seq<Option<IndexRecord>>, k: nat)
    requires k < |t| && t[k].Some?
    requires forall i :: 0 <= i < k ==> t[i].None?
    ensures Relocated(t, OctreeConfig.RegionHeaderBytes())[k].value.offset == OctreeConfig.RegionHeaderBytes()
  {
    NextOffsetSkipsAbsent(t, OctreeConfig.RegionHeaderBytes(), 0, k);
    assert t[..0] == [];
  }

  /** Saving places each present record right after the previous present one, in index order. */
  lemma NextRecordOffset(t: seq<Option<IndexRecord>>, start: int, j: nat, k: nat)
    requires j < k < |t| && t[j].Some? && t[k].Some?
    requires forall i :: j < i < k ==> t[i].None?
    ensures Relocated(t, start)[k].value.offset == Relocated(t, start)[j].value.offset + t[j].value.size
  {
    NextOffsetSkipsAbsent(t, start, j + 1, k);
    NextOffsetStep(t, j, start);
  }

  /** `updateChunkData` with a size equal to the buffer's length keeps the table and the buffers in agreement. */
  lemma UpdateKeepsConsistent(t: seq<Option<IndexRecord>>, buffers: Buffers, i: int, b: seq<byte>, now: int)
    requires Consistent(t, buffers)
    ensures 0 <= i < |t| ==> Consistent(t[i := Some(IndexRecord(0, |b|, now))], Set(buffers, i, b))
  {
    if 0 <= i < |t| {
      var t' := t[i := Some(IndexRecord(0, |b|, now))];
      forall k | 0 <= k < |t'|
        ensures (t'[k].Some? <==> Has(Set(buffers, i, b), k)) &&
          (t'[k].Some? ==> t'[k].value.size == |Get(Set(buffers, i, b), k).value|)
      {
        GetSet(buffers, i, b, k);
      }
    }
  }
}
