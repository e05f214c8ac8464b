/**
 * The dense region of src/world/region.js: a 4 × 4 × 4 grid of chunks kept
 * in one array in the order `linearIndex(x, y, z) = (x·4 + y)·4 + z`, and
 * its "VOXL" file: an 11-byte big-endian header, a 5-byte entry per chunk
 * (24-bit offset, 16-bit size) and the 64 chunk cores of 27000 bytes back
 * to back.
 *
 * Reading a file rebuilds each chunk with `Chunk.fromCoreData`, which
 * shifts the core by one voxel on each axis: the header and the stored
 * bytes round-trip, the chunk contents do not.
 */
module DenseRegion {
  import opened JsNumbers
  import opened Wrappers
  import RegionSchema
  import Bytes
  import DenseChunk

  /** `Region.MAGIC`: the letters 'VOXL' read as a big-endian 32-bit integer. */
  const MAGIC: nat := 0x564F_584C
  const VERSION: nat := 1
  /** Chunks per side (`schema.GRID`). */
  const GRID: nat := 4
  /** Chunks in a region. */
  const TOTAL: nat := 64
  const HEADER_SIZE: nat := 11
  const INDEX_ENTRY_SIZE: nat := 5
  const INDEX_TABLE_SIZE: nat := 320
  /** Where the first chunk's bytes begin. */
  const DATA_OFFSET: nat := 331
  /** The length of every file `toBuffer` writes. */
  const FILE_SIZE: nat := 1_728_331

  /** The constructor derives the layout from the schema. */
  lemma LayoutValues()
    ensures GRID == RegionSchema.GRID && TOTAL == GRID * GRID * GRID == RegionSchema.CHUNKS_PER_REGION
    ensures INDEX_TABLE_SIZE == TOTAL * INDEX_ENTRY_SIZE && DATA_OFFSET == HEADER_SIZE + INDEX_TABLE_SIZE
    ensures DenseChunk.VOXELS == RegionSchema.CHUNK_BYTES
    ensures FILE_SIZE == DATA_OFFSET + TOTAL * DenseChunk.VOXELS
  {
    DenseChunk.SizesAgree();
  }

  // ---------------------------------------------------------------- grid

  /** `linearIndex(x, y, z)` with `GRID = 4`. */
  function LinearIndex(x: int, y: int, z: int): int
  {
    (x * 4 + y) * 4 + z
  }

  /** `unlinearIndex(i)`: `%` is the truncating remainder; `(i - z) / 4` divides exactly. */
  function UnlinearIndex(i: int): (int, int, int)
  {
    var z := JsRem(i, 4);
    var t := (i - z) / 4;
    var y := JsRem(t, 4);
    var x := (t - y) / 4;
    (x, y, z)
  }

  /** The coordinates `_checkXYZ` lets through. */
  predicate InGrid(x: int, y: int, z: int)
  {
    0 <= x < GRID && 0 <= y < GRID && 0 <= z < GRID
  }

  /** `linearIndex` maps the grid into `[0, 64)` and `unlinearIndex` takes it back. */
  lemma UnlinearOfLinear(x: int, y: int, z: int)
    requires InGrid(x, y, z)
    ensures 0 <= LinearIndex(x, y, z) < TOTAL
    ensures UnlinearIndex(LinearIndex(x, y, z)).0 == x
    ensures UnlinearIndex(LinearIndex(x, y, z)).1 == y
    ensures UnlinearIndex(LinearIndex(x, y, z)).2 == z
  {
    var i := LinearIndex(x, y, z);
    ModUnique(i, 4, 4 * x + y, z);
    ModUnique(i - z, 4, 4 * x + y, 0);
    ModUnique(4 * x + y, 4, x, y);
    ModUnique(4 * x, 4, x, 0);
  }

  /** Every slot `i` of the array is the slot of the grid coordinates `unlinearIndex(i)`. */
  lemma LinearOfUnlinear(i: int)
    requires 0 <= i < TOTAL
    ensures var p := UnlinearIndex(i); InGrid(p.0, p.1, p.2) && LinearIndex(p.0, p.1, p.2) == i
  {
    var z := i % 4;
    var t := i / 4;
    ModUnique(i - z, 4, t, 0);
    ModUnique(t - t % 4, 4, t / 4, 0);
  }

  /** Two grid coordinates share a slot only when they are equal. */
  lemma LinearIndexInjective(x1: int, y1: int, z1: int, x2: int, y2: int, z2: int)
    requires InGrid(x1, y1, z1) && InGrid(x2, y2, z2)
    ensures LinearIndex(x1, y1, z1) == LinearIndex(x2, y2, z2) ==> x1 == x2 && y1 == y2 && z1 == z2
  {
    UnlinearOfLinear(x1, y1, z1);
    UnlinearOfLinear(x2, y2, z2);
  }

  // ---------------------------------------------------------------- the file layout

  /** The 11 bytes of the header: 'VOXL', the version 1, the chunk side 30 three times, the chunk count 64 in 24 bits. */
  function Header(): (h: seq<byte>)
  {
    [0x56, 0x4F, 0x58, 0x4C, 1, 30, 30, 30, 0, 0, 64]
  }

  /** The header holds the magic big-endian, the version, the schema's chunk side three times and the chunk count. */
  lemma HeaderFields()
    ensures |Header()| == HEADER_SIZE && Bytes.Be32(Header()[0], Header()[1], Header()[2], Header()[3]) == MAGIC
    ensures Header()[4] == VERSION && Bytes.Be24(Header()[8], Header()[9], Header()[10]) == TOTAL
    ensures Header()[5] == Header()[6] == Header()[7] == RegionSchema.CHUNK_SIZE
  {
  }

  /** The entry of chunk `i`: its offset `331 + i·27000` in 24 bits and the size 27000 in 16 bits, high byte first. */
  function Entry(i: int): (e: seq<byte>)
    ensures |e| == INDEX_ENTRY_SIZE
  {
    var off := DATA_OFFSET + DenseChunk.VOXELS * i;
    [ToUint8(off / 0x1_0000), ToUint8(off / 0x100), ToUint8(off), ToUint8(DenseChunk.VOXELS / 0x100), ToUint8(DenseChunk.VOXELS)]
  }

  /** The entries of the first `n` chunks. */
  function Entries(n: nat): (t: seq<byte>)
    ensures |t| == INDEX_ENTRY_SIZE * n
  {
    if n == 0 then [] else Entries(n - 1) + Entry(n - 1)
  }

  /** `new Uint8Array(27000)`: the core stored for an empty slot. */
  const EMPTY_CORE: seq<byte> := Bytes.Zeros(DenseChunk.VOXELS)

  /** The chunk cores back to back. */
  function Concat(cores: seq<seq<byte>>): seq<byte>
  {
    if cores == [] then [] else Concat(cores[..|cores| - 1]) + cores[|cores| - 1]
  }

  /** One core per chunk slot, each of 27000 bytes. */
  predicate WellFormed(cores: seq<seq<byte>>)
  {
    |cores| == TOTAL && forall k :: 0 <= k < |cores| ==> |cores[k]| == DenseChunk.VOXELS
  }

  /** The file `toBuffer` writes for the given chunk cores (zeros for an absent chunk). */
  function Encode(cores: seq<seq<byte>>): (file: seq<byte>)
    requires WellFormed(cores)
  {
    Header() + Entries(|cores|) + Concat(cores)
  }

  /** Appending a core appends its bytes. */
  lemma ConcatSnoc(cores: seq<seq<byte>>, core: seq<byte>)
    ensures Concat(cores + [core]) == Concat(cores) + core
  {
    assert (cores + [core])[..|cores|] == cores;
  }

  /** Every core of a well-formed list has its place: the data area has one slot of 27000 bytes per chunk. */
  lemma {:induction false} ConcatSlot(cores: seq<seq<byte>>, k: nat)
    requires forall j :: 0 <= j < |cores| ==> |cores[j]| == DenseChunk.VOXELS
    requires k < |cores|
    ensures |Concat(cores)| == DenseChunk.VOXELS * |cores|
    ensures Concat(cores)[DenseChunk.VOXELS * k..DenseChunk.VOXELS * k + DenseChunk.VOXELS] == cores[k]
  {
    var n := |cores| - 1;
    var front := cores[..n];
    assert Concat(cores) == Concat(front) + cores[n];
    if k < n {
      ConcatSlot(front, k);
      assert front[k] == cores[k];
    } else if n > 0 {
      ConcatSlot(front, 0);
    }
  }

  /** The entry of chunk `i` sits at byte `5·i` of the table. */
  lemma {:induction false} EntriesSlot(n: nat, i: nat)
    requires i < n
    ensures Entries(n)[INDEX_ENTRY_SIZE * i..INDEX_ENTRY_SIZE * i + INDEX_ENTRY_SIZE] == Entry(i)
  {
    if i < n - 1 {
      EntriesSlot(n - 1, i);
    }
  }

  /** An entry read back gives the offset and the size written into it. */
  lemma EntryFields(i: int)
    requires 0 <= i < TOTAL
    ensures Bytes.Be24(Entry(i)[0], Entry(i)[1], Entry(i)[2]) == DATA_OFFSET + DenseChunk.VOXELS * i
    ensures Entry(i)[3] as int * 256 + Entry(i)[4] as int == DenseChunk.VOXELS
  {
    Bytes.Be24Shifts(DATA_OFFSET + DenseChunk.VOXELS * i);
    Bytes.Be16Shifts(DenseChunk.VOXELS);
  }

  // ---------------------------------------------------------------- reading a file

  /** What makes `fromBuffer` or a grid access throw. */
  datatype RegionError =
    | OutOfRange                   // a coordinate outside [0, GRID)
    | NotAChunk                    // setChunk with a value that is neither null nor a Chunk
    | ViewOutOfRange               // a DataView read past the end of the buffer
    | InvalidMagic
    | UnsupportedVersion
    | ChunkSizeMismatch
    | ChunkCountMismatch
    | EntrySizeMismatch(index: nat)

  /** A typed-array read: past the end it is `undefined`, which the bit operators read as 0. */
  function ByteAt(b: seq<byte>, i: int): byte
  {
    if 0 <= i < |b| then b[i] else 0
  }

  /** The header checks of `fromBuffer` in their order; a DataView read past the end throws first. */
  function CheckHeader(b: seq<byte>): (r: Result<(), RegionError>)
    ensures r.Ok? <==>
      && |b| >= HEADER_SIZE && Bytes.Be32(b[0], b[1], b[2], b[3]) == MAGIC && b[4] == VERSION
      && b[5] == b[6] == b[7] == RegionSchema.CHUNK_SIZE && Bytes.Be24(b[8], b[9], b[10]) == TOTAL
  {
    if |b| < 4 then Err(ViewOutOfRange)
    else if Bytes.Be32(b[0], b[1], b[2], b[3]) != MAGIC then Err(InvalidMagic)
    else if |b| < 5 then Err(ViewOutOfRange)
    else if b[4] != VERSION then Err(UnsupportedVersion)
    else if |b| < 8 then Err(ViewOutOfRange)
    else if b[5] != RegionSchema.CHUNK_SIZE || b[6] != RegionSchema.CHUNK_SIZE || b[7] != RegionSchema.CHUNK_SIZE then
      Err(ChunkSizeMismatch)
    else if |b| < HEADER_SIZE then Err(ViewOutOfRange)
    else if Bytes.Be24(b[8], b[9], b[10]) != TOTAL then Err(ChunkCountMismatch)
    else Ok(())
  }

  /** The offset field of entry `i`. */
  function EntryOffset(b: seq<byte>, i: int): nat
  {
    var base := HEADER_SIZE + INDEX_ENTRY_SIZE * i;
    Bytes.Be24(ByteAt(b, base), ByteAt(b, base + 1), ByteAt(b, base + 2))
  }

  /** The size field of entry `i`. */
  function EntrySize(b: seq<byte>, i: int): nat
  {
    var base := HEADER_SIZE + INDEX_ENTRY_SIZE * i;
    ByteAt(b, base + 3) as int * 256 + ByteAt(b, base + 4) as int
  }

  /** `bytes.subarray(off, off + siz)`: clamped to the buffer like `slice`. */
  function EntrySlice(b: seq<byte>, i: int): seq<byte>
  {
    Bytes.Slice(b, EntryOffset(b, i), EntryOffset(b, i) + EntrySize(b, i))
  }

  /** The entry loop of `fromBuffer` over its first `n` chunks: the slices, or the first entry whose size is wrong. */
  function ScanEntries(b: seq<byte>, n: nat): (r: Result<seq<seq<byte>>, RegionError>)
    ensures r.Ok? <==> forall k :: 0 <= k < n ==> EntrySize(b, k) == DenseChunk.VOXELS
    ensures r.Ok? ==> |r.value| == n && forall k :: 0 <= k < n ==> r.value[k] == EntrySlice(b, k)
    ensures r.Err? ==>
      && r.error.EntrySizeMismatch? && r.error.index < n
      && EntrySize(b, r.error.index) != DenseChunk.VOXELS
      && forall k :: 0 <= k < r.error.index ==> EntrySize(b, k) == DenseChunk.VOXELS
  {
    if n == 0 then Ok([])
    else
      var front := ScanEntries(b, n - 1);
      if front.Err? then front
      else if EntrySize(b, n - 1) != DenseChunk.VOXELS then Err(EntrySizeMismatch(n - 1))
      else Ok(front.value + [EntrySlice(b, n - 1)])
  }

  /** `Region.fromBuffer` as far as bytes go: the header checks, then the core slice of every entry. */
  function Decode(b: seq<byte>): (r: Result<seq<seq<byte>>, RegionError>)
  {
    var h := CheckHeader(b);
    if h.Err? then Err(h.error) else ScanEntries(b, TOTAL)
  }

  /** The header `toBuffer` writes passes every check of `fromBuffer`. */
  lemma HeaderAccepted(file: seq<byte>)
    requires |file| >= HEADER_SIZE && file[..HEADER_SIZE] == Header()
    ensures CheckHeader(file).Ok?
  {
    var h := Header();
    HeaderFields();
    assert file[0] == h[0] && file[1] == h[1] && file[2] == h[2] && file[3] == h[3];
    assert file[4] == h[4] && file[5] == h[5] && file[6] == h[6] && file[7] == h[7];
    assert file[8] == h[8] && file[9] == h[9] && file[10] == h[10];
  }

  /** The five bytes at `off` of a table stored at `start` in the file are the file's bytes at `start + off`. */
  lemma EntryBytes(file: seq<byte>, table: seq<byte>, start: nat, end: nat, off: nat, e: seq<byte>)
    requires start <= end <= |file| && file[start..end] == table
    requires off + INDEX_ENTRY_SIZE <= end - start && table[off..off + INDEX_ENTRY_SIZE] == e
    ensures |e| == INDEX_ENTRY_SIZE
    ensures file[start + off] == e[0] && file[start + off + 1] == e[1] && file[start + off + 2] == e[2]
    ensures file[start + off + 3] == e[3] && file[start + off + 4] == e[4]
  {
    assert table[off] == e[0] && table[off + 1] == e[1] && table[off + 2] == e[2];
    assert table[off + 3] == e[3] && table[off + 4] == e[4];
  }

  /** Entry `i` of a file whose table area holds `Entries(n)` gives the offset and the size written for chunk `i`. */
  lemma ReadEntry(file: seq<byte>, n: nat, i: nat)
    requires i < n <= TOTAL && HEADER_SIZE + INDEX_ENTRY_SIZE * n <= |file|
    requires file[HEADER_SIZE..HEADER_SIZE + INDEX_ENTRY_SIZE * n] == Entries(n)
    ensures EntryOffset(file, i) == DATA_OFFSET + DenseChunk.VOXELS * i
    ensures EntrySize(file, i) == DenseChunk.VOXELS
  {
    EntriesSlot(n, i);
    EntryAt(file, Entries(n), HEADER_SIZE + INDEX_ENTRY_SIZE * n, i);
  }

  /** A file whose table area holds `Entry(i)` in slot `i` gives back the offset and the size written for chunk `i`. */
  lemma EntryAt(file: seq<byte>, table: seq<byte>, end: nat, i: nat)
    requires i < TOTAL && HEADER_SIZE <= end <= |file| && file[HEADER_SIZE..end] == table
    requires HEADER_SIZE + INDEX_ENTRY_SIZE * i + INDEX_ENTRY_SIZE <= end
    requires table[INDEX_ENTRY_SIZE * i..INDEX_ENTRY_SIZE * i + INDEX_ENTRY_SIZE] == Entry(i)
    ensures EntryOffset(file, i) == DATA_OFFSET + DenseChunk.VOXELS * i
    ensures EntrySize(file, i) == DenseChunk.VOXELS
  {
    EntryBytes(file, table, HEADER_SIZE, end, INDEX_ENTRY_SIZE * i, Entry(i));
    EntryFields(i);
  }

  /** Each entry of a written file gives back the offset and the size of its chunk, and its slice is that chunk's core. */
  lemma EncodedEntry(cores: seq<seq<byte>>, i: nat)
    requires WellFormed(cores) && i < TOTAL
    ensures |Encode(cores)| == FILE_SIZE
    ensures EntryOffset(Encode(cores), i) == DATA_OFFSET + DenseChunk.VOXELS * i
    ensures EntrySize(Encode(cores), i) == DenseChunk.VOXELS
    ensures EntrySlice(Encode(cores), i) == cores[i]
  {
    var table, data := Entries(|cores|), Concat(cores);
    var file := Header() + table + data;
    assert file == Encode(cores);
    assert file[HEADER_SIZE..HEADER_SIZE + INDEX_ENTRY_SIZE * |cores|] == table;
    ReadEntry(file, |cores|, i);
    ConcatSlot(cores, i);
    var off := DenseChunk.VOXELS * i;
    assert file[DATA_OFFSET..] == data;
    assert file[DATA_OFFSET + off..DATA_OFFSET + off + DenseChunk.VOXELS] == data[off..off + DenseChunk.VOXELS];
  }

  /** The entry loop over a written file finds the cores in order. */
  lemma {:induction false} ScanEncoded(cores: seq<seq<byte>>, n: nat)
    requires WellFormed(cores) && n <= TOTAL
    ensures ScanEntries(Encode(cores), n) == Ok(cores[..n])
  {
    if n > 0 {
      ScanEncoded(cores, n - 1);
      EncodedEntry(cores, n - 1);
      PrefixSnoc(cores, n);
    }
  }

  /** A prefix is the shorter prefix followed by its last element. */
  lemma PrefixSnoc(cores: seq<seq<byte>>, n: nat)
    requires 0 < n <= |cores|
    ensures cores[..n] == cores[..n - 1] + [cores[n - 1]]
  {
  }

  /** Writing then reading a region gives back every chunk core that was written. */
  lemma DecodeEncode(cores: seq<seq<byte>>)
    requires WellFormed(cores)
    ensures Decode(Encode(cores)) == Ok(cores)
  {
    var file := Encode(cores);
    assert file[..HEADER_SIZE] == Header();
    HeaderAccepted(file);
    ScanEncoded(cores, TOTAL);
    assert cores[..TOTAL] == cores;
  }

  /**
   * What a region holds after a write and a read: chunk `i` is
   * `fromCoreData` of the core that was written, shifted by one voxel on
   * each axis, so a chunk whose only solid voxel is the corner `(0, 0, 0)`
   * comes back with it at `(1, 1, 1)`.
   */
  lemma ReloadShiftsContent(cores: seq<seq<byte>>, i: nat)
    requires WellFormed(cores) && i < TOTAL
    requires cores[i] == DenseChunk.Filled(0)[0 := 1]
    ensures Decode(Encode(cores)).Ok? && |Decode(Encode(cores)).value| == TOTAL
    ensures DenseChunk.FromCore(Decode(Encode(cores)).value[i]) != cores[i]
  {
    DecodeEncode(cores);
    DenseChunk.CoreDataDoesNotRoundTrip();
  }

  // ---------------------------------------------------------------- the region object

  /** The `chunk` argument of `setChunk`: `null`, a Chunk, or any other value. */
  datatype ChunkArg = NullChunk | AChunk(chunk: DenseChunk.Chunk) | OtherValue

  /** The slot value `setChunk` stores for an accepted argument. */
  function Slot(arg: ChunkArg): Option<DenseChunk.Chunk>
  {
    if arg.AChunk? then Some(arg.chunk) else None
  }

  class Region {
    var regionX: int
    var regionY: int
    var regionZ: int
    /** `_chunks`: one slot per chunk, `null` when absent. */
    var chunks: seq<Option<DenseChunk.Chunk>>

    predicate Valid()
      reads this
    {
      |chunks| == TOTAL
    }

    /** `new Region({regionX, regionY, regionZ})` with the default schema: every slot empty. */
    constructor (regionX: int, regionY: int, regionZ: int)
      ensures Valid() && forall k :: 0 <= k < TOTAL ==> chunks[k].None?
      ensures this.regionX == ToInt32(regionX) && this.regionY == ToInt32(regionY) && this.regionZ == ToInt32(regionZ)
    {
      this.regionX := ToInt32(regionX);
      this.regionY := ToInt32(regionY);
      this.regionZ := ToInt32(regionZ);
      this.chunks := seq(TOTAL, _ => None);
    }

    /** `hasChunk(x, y, z)`. */
    method HasChunk(x: int, y: int, z: int) returns (r: Result<bool, RegionError>)
      requires Valid()
      ensures r.Ok? <==> InGrid(x, y, z)
      ensures r.Err? ==> r.error == OutOfRange
      ensures r.Ok? ==> 0 <= LinearIndex(x, y, z) < TOTAL && (r.value <==> chunks[LinearIndex(x, y, z)].Some?)
    {
      if !InGrid(x, y, z) {
        return Err(OutOfRange);
      }
      UnlinearOfLinear(x, y, z);
      r := Ok(chunks[LinearIndex(x, y, z)].Some?);
    }

    /** `getChunk(x, y, z)`. */
    method GetChunk(x: int, y: int, z: int) returns (r: Result<Option<DenseChunk.Chunk>, RegionError>)
      requires Valid()
      ensures r.Ok? <==> InGrid(x, y, z)
      ensures r.Err? ==> r.error == OutOfRange
      ensures r.Ok? ==> 0 <= LinearIndex(x, y, z) < TOTAL && r.value == chunks[LinearIndex(x, y, z)]
    {
      if !InGrid(x, y, z) {
        return Err(OutOfRange);
      }
      UnlinearOfLinear(x, y, z);
      r := Ok(chunks[LinearIndex(x, y, z)]);
    }

    /**
     * `setChunk(x, y, z, chunk)`. The size check of the source never fires:
     * `coreByteLength` is a static method of `Chunk`, so an instance has no
     * such property.
     */
    method SetChunk(x: int, y: int, z: int, arg: ChunkArg) returns (r: Result<(), RegionError>)
      requires Valid()
      modifies this
      ensures Valid() && regionX == old(regionX) && regionY == old(regionY) && regionZ == old(regionZ)
      ensures r.Ok? <==> InGrid(x, y, z) && !arg.OtherValue?
      ensures r.Err? ==> r.error == (if InGrid(x, y, z) then NotAChunk else OutOfRange) && chunks == old(chunks)
      ensures r.Ok? ==> 0 <= LinearIndex(x, y, z) < TOTAL && chunks == old(chunks)[LinearIndex(x, y, z) := Slot(arg)]
    {
      if !InGrid(x, y, z) {
        return Err(OutOfRange);
      }
      if arg.OtherValue? {
        return Err(NotAChunk);
      }
      UnlinearOfLinear(x, y, z);
      chunks := chunks[LinearIndex(x, y, z) := Slot(arg)];
      r := Ok(());
    }

    /** `ensureChunk(x, y, z, origin)`: the chunk in the slot, or a new all-air one put there. */
    method EnsureChunk(x: int, y: int, z: int, origin: (int, int, int)) returns (r: Result<DenseChunk.Chunk, RegionError>)
      requires Valid()
      modifies this
      ensures Valid() && regionX == old(regionX) && regionY == old(regionY) && regionZ == old(regionZ)
      ensures r.Ok? <==> InGrid(x, y, z)
      ensures r.Err? ==> r.error == OutOfRange && chunks == old(chunks)
      ensures r.Ok? ==> 0 <= LinearIndex(x, y, z) < TOTAL && chunks[LinearIndex(x, y, z)] == Some(r.value)
      ensures r.Ok? && old(chunks)[LinearIndex(x, y, z)].Some? ==> chunks == old(chunks)
      ensures r.Ok? && old(chunks)[LinearIndex(x, y, z)].None? ==>
        chunks == old(chunks)[LinearIndex(x, y, z) := Some(r.value)]
        && fresh(r.value) && r.value.Valid() && r.value.voxels[..] == DenseChunk.Filled(0)
        && r.value.origin == DenseChunk.Int32Triple(origin)
    {
      var g := GetChunk(x, y, z);
      if g.Err? {
        return Err(g.error);
      }
      if g.value.Some? {
        return Ok(g.value.value);
      }
      var made := DenseChunk.Chunk.New(DenseChunk.Missing, origin, (0, 0, 0));
      var c := made.value;
      var s := SetChunk(x, y, z, AChunk(c));
      r := Ok(c);
    }

    /** `forEachChunk(cb)`: the arguments `(chunk, x, y, z, i)` of the callback's calls, in slot order. */
    method ForEachChunk() returns (calls: seq<(Option<DenseChunk.Chunk>, int, int, int, int)>)
      requires Valid()
      ensures |calls| == TOTAL
      ensures forall i :: 0 <= i < TOTAL ==>
        calls[i].0 == chunks[i] && calls[i].4 == i
        && InGrid(calls[i].1, calls[i].2, calls[i].3) && LinearIndex(calls[i].1, calls[i].2, calls[i].3) == i
    {
      calls := [];
      var i := 0;
      while i < TOTAL
        invariant 0 <= i <= TOTAL && |calls| == i
        invariant forall k :: 0 <= k < i ==>
          calls[k].0 == chunks[k] && calls[k].4 == k
          && InGrid(calls[k].1, calls[k].2, calls[k].3) && LinearIndex(calls[k].1, calls[k].2, calls[k].3) == k
      {
        var p := UnlinearIndex(i);
        LinearOfUnlinear(i);
        calls := calls + [(chunks[i], p.0, p.1, p.2, i)];
        i := i + 1;
      }
    }

    /**
     * `toBuffer()`: the header, the index table built in a loop with a
     * running offset, then each chunk's `toCoreData()` (zeros for an empty
     * slot) copied into its place. `cores` names what was written.
     */
    /** `chunk ? chunk.toCoreData() : new Uint8Array(27000)` for slot `i`. */
    method SlotCore(i: nat) returns (core: seq<byte>)
      requires Valid() && i < TOTAL && (chunks[i].Some? ==> chunks[i].value.Valid())
      ensures core == if chunks[i].Some? then chunks[i].value.voxels[..] else EMPTY_CORE
    {
      if chunks[i].Some? {
        core := chunks[i].value.ToCoreData();
      } else {
        core := EMPTY_CORE;
      }
    }

    method ToBuffer() returns (file: seq<byte>, ghost cores: seq<seq<byte>>)
      requires Valid()
      requires forall k :: 0 <= k < TOTAL && chunks[k].Some? ==> chunks[k].value.Valid()
      ensures WellFormed(cores)
      ensures forall k :: 0 <= k < TOTAL ==>
        cores[k] == if chunks[k].Some? then chunks[k].value.voxels[..] else Bytes.Zeros(DenseChunk.VOXELS)
      ensures file == Encode(cores)
    {
      var buf := Bytes.Zeros(FILE_SIZE);
      var header := HeaderWrites();
      buf := SetAt(buf, 0, header);
      var table := IndexTable();
      buf := SetAt(buf, HEADER_SIZE, table[..]);
      assert buf[..DATA_OFFSET] == Header() + Entries(TOTAL);
      file, cores := WriteData(buf);
    }

    /** What `toBuffer` writes for slot `k`: the chunk's voxels, or zeros for an empty slot. */
    ghost function CoreAt(k: nat): seq<byte>
      requires Valid() && k < TOTAL
      reads this, if chunks[k].Some? then {chunks[k].value, chunks[k].value.voxels} else {}
    {
      if chunks[k].Some? then chunks[k].value.voxels[..] else EMPTY_CORE
    }

    /** Appending slot `i`'s core to the cores of the slots before it gives the cores of the slots up to `i`. */
    lemma CoresStep(cores: seq<seq<byte>>, i: nat)
      requires Valid() && i < TOTAL && |cores| == i && forall k :: 0 <= k < i ==> cores[k] == CoreAt(k)
      ensures forall k :: 0 <= k < i + 1 ==> (cores + [CoreAt(i)])[k] == CoreAt(k)
    { }

    /** The data loop of `toBuffer`: each slot's `toCoreData()`, or zeros, copied in at its running offset. */
    method WriteData(buf0: seq<byte>) returns (buf: seq<byte>, ghost cores: seq<seq<byte>>)
      requires Valid()
      requires forall k :: 0 <= k < TOTAL && chunks[k].Some? ==> chunks[k].value.Valid()
      requires |buf0| == FILE_SIZE
      ensures |cores| == TOTAL && forall k :: 0 <= k < TOTAL ==>
        cores[k] == if chunks[k].Some? then chunks[k].value.voxels[..] else EMPTY_CORE
      ensures buf == buf0[..DATA_OFFSET] + Concat(cores)
    {
      buf := buf0;
      cores := [];
      var dataOffset := DATA_OFFSET;
      var i := 0;
      while i < TOTAL
        invariant 0 <= i <= TOTAL && dataOffset == DATA_OFFSET + DenseChunk.VOXELS * i
        invariant |cores| == i && forall k :: 0 <= k < i ==> cores[k] == CoreAt(k)
        invariant |buf| == FILE_SIZE && buf[..dataOffset] == buf0[..DATA_OFFSET] + Concat(cores)
      {
        var core := SlotCore(i);
        CoresStep(cores, i);
        DataStep(buf0, buf, cores, core, dataOffset);
        buf := SetAt(buf, dataOffset, core);
        cores := cores + [core];
        dataOffset := dataOffset + DenseChunk.VOXELS;
        i := i + 1;
      }
      assert buf == buf[..dataOffset];
    }

    /**
     * `Region.fromBuffer(buffer, {regionX, regionY, regionZ})` with the default
     * schema and chunk class: the header checks, then one `Chunk.fromCoreData`
     * per index entry; a thrown error becomes `Err` and the partial region is lost.
     */
    static method FromBuffer(b: seq<byte>, regionX: int, regionY: int, regionZ: int) returns (r: Result<Region, RegionError>)
      ensures r.Ok? <==> Decode(b).Ok?
      ensures r.Err? ==> r.error == Decode(b).error
      ensures r.Ok? ==>
        && fresh(r.value) && r.value.Valid()
        && r.value.regionX == ToInt32(regionX) && r.value.regionY == ToInt32(regionY) && r.value.regionZ == ToInt32(regionZ)
        && forall k :: 0 <= k < TOTAL ==>
          && r.value.chunks[k].Some?
          && r.value.chunks[k].value.voxels[..] == DenseChunk.FromCore(Decode(b).value[k])
          && r.value.chunks[k].value.origin == DenseChunk.Int32Triple(UnlinearIndex(k))
    {
      var h := CheckHeader(b);
      if h.Err? {
        return Err(h.error);
      }
      var region := new Region(regionX, regionY, regionZ);
      var i := 0;
      while i < TOTAL
        invariant 0 <= i <= TOTAL && region.Valid()
        invariant region.regionX == ToInt32(regionX) && region.regionY == ToInt32(regionY) && region.regionZ == ToInt32(regionZ)
        invariant forall k :: 0 <= k < i ==> EntrySize(b, k) == DenseChunk.VOXELS
        invariant forall k :: 0 <= k < i ==>
          && region.chunks[k].Some?
          && region.chunks[k].value.voxels[..] == DenseChunk.FromCore(EntrySlice(b, k))
          && region.chunks[k].value.origin == DenseChunk.Int32Triple(UnlinearIndex(k))
      {
        var base := HEADER_SIZE + INDEX_ENTRY_SIZE * i;
        var siz := ByteAt(b, base + 3) as int * 256 + ByteAt(b, base + 4) as int;
        if siz != DenseChunk.VOXELS {
          FirstBadEntry(b, i);
          return Err(EntrySizeMismatch(i));
        }
        region.LoadEntry(b, i);
        i := i + 1;
      }
      return Ok(region);
    }

    /** One iteration of the `fromBuffer` entry loop: the core slice of entry `i` becomes the chunk in slot `i`. */
    method LoadEntry(b: seq<byte>, i: nat)
      requires Valid() && i < TOTAL
      modifies this
      ensures Valid() && regionX == old(regionX) && regionY == old(regionY) && regionZ == old(regionZ)
      ensures forall k :: 0 <= k < TOTAL && k != i ==> chunks[k] == old(chunks[k])
      ensures chunks[i].Some? && fresh(chunks[i].value)
      ensures chunks[i].value.voxels[..] == DenseChunk.FromCore(EntrySlice(b, i))
      ensures chunks[i].value.origin == DenseChunk.Int32Triple(UnlinearIndex(i))
    {
      var coreSlice := EntrySlice(b, i);
      var c := DenseChunk.Chunk.FromCoreData(coreSlice, UnlinearIndex(i));
      chunks := chunks[i := Some(c)];
    }
  }

  /** The entry scan of `fromBuffer` stops at the first entry whose size field is wrong. */
  lemma FirstBadEntry(b: seq<byte>, i: nat)
    requires i < TOTAL && CheckHeader(b).Ok?
    requires forall k :: 0 <= k < i ==> EntrySize(b, k) == DenseChunk.VOXELS
    requires EntrySize(b, i) != DenseChunk.VOXELS
    ensures Decode(b) == Err(EntrySizeMismatch(i))
  {
    var r := ScanEntries(b, TOTAL);
    assert r.Err?;
    var j := r.error.index;
    assert !(j < i) && !(i < j);
  }

  /** One step of the data loop: the next core lands right after the data already written. */
  lemma DataStep(buf0: seq<byte>, buf: seq<byte>, cores: seq<seq<byte>>, core: seq<byte>, pos: nat)
    requires |buf0| >= DATA_OFFSET && |core| == DenseChunk.VOXELS && pos + |core| <= |buf|
    requires buf[..pos] == buf0[..DATA_OFFSET] + Concat(cores)
    ensures |SetAt(buf, pos, core)| == |buf|
    ensures SetAt(buf, pos, core)[..pos + |core|] == buf0[..DATA_OFFSET] + Concat(cores + [core])
  {
    ConcatSnoc(cores, core);
  }

  /** `new Uint8Array(buffer, pos, |src|).set(src)` on the buffer `toBuffer` fills: `src` in place at `pos`, the rest kept. */
  function SetAt(buf: seq<byte>, pos: nat, src: seq<byte>): (r: seq<byte>)
    requires pos + |src| <= |buf|
    ensures |r| == |buf| && r[..pos] == buf[..pos] && r[pos..pos + |src|] == src
    ensures r[..pos + |src|] == buf[..pos] + src
  {
    buf[..pos] + src + buf[pos + |src|..]
  }

  /**
   * The header bytes `toBuffer` writes: `setUint32` big-endian for the
   * magic, `setUint8` for the rest, the count cut into bytes with shifts
   * and masks.
   */
  method HeaderWrites() returns (h: seq<byte>)
    ensures h == Header()
  {
    h := [ToUint8(MAGIC / 0x100_0000), ToUint8(MAGIC / 0x1_0000), ToUint8(MAGIC / 0x100), ToUint8(MAGIC),
          VERSION as byte, RegionSchema.CHUNK_SIZE as byte, RegionSchema.CHUNK_SIZE as byte, RegionSchema.CHUNK_SIZE as byte,
          ToUint8(TOTAL / 0x1_0000), ToUint8(TOTAL / 0x100), ToUint8(TOTAL)];
  }

  /** The five `setUint8` writes of one entry at `base`, after the entries already written. */
  method PutEntry(table: array<byte>, base: nat, entry: seq<byte>)
    requires |entry| == INDEX_ENTRY_SIZE && base + INDEX_ENTRY_SIZE <= table.Length
    modifies table
    ensures table[..base + INDEX_ENTRY_SIZE] == old(table[..base]) + entry
  {
    ghost var before := table[..base];
    forall j | 0 <= j < INDEX_ENTRY_SIZE {
      table[base + j] := entry[j];
    }
    assert table[..base + INDEX_ENTRY_SIZE] == before + entry;
  }

  /** The entries of the first `i + 1` chunks are those of the first `i` and then entry `i`. */
  lemma NextEntries(i: nat)
    ensures Entries(i + 1) == Entries(i) + Entry(i)
  { }

  /** The index-table loop of `toBuffer`: entry `i` holds the running offset and the chunk size, each byte cut out with a shift and a mask. */
  method IndexTable() returns (table: array<byte>)
    ensures fresh(table) && table[..] == Entries(TOTAL)
  {
    table := new byte[INDEX_TABLE_SIZE];
    var currentOffset := DATA_OFFSET;
    var i := 0;
    while i < TOTAL
      invariant 0 <= i <= TOTAL && currentOffset == DATA_OFFSET + DenseChunk.VOXELS * i
      invariant table[..INDEX_ENTRY_SIZE * i] == Entries(i)
    {
      var base := i * INDEX_ENTRY_SIZE;
      var entry := [ToUint8(currentOffset / 0x1_0000), ToUint8(currentOffset / 0x100), ToUint8(currentOffset),
                    ToUint8(DenseChunk.VOXELS / 0x100), ToUint8(DenseChunk.VOXELS)];
      assert entry == Entry(i);
      PutEntry(table, base, entry);
      NextEntries(i);
      assert table[..INDEX_ENTRY_SIZE * (i + 1)] == Entries(i + 1) by {
        assert INDEX_ENTRY_SIZE * (i + 1) == base + INDEX_ENTRY_SIZE;
      }
      currentOffset := currentOffset + DenseChunk.VOXELS;
      i := i + 1;
    }
    assert table[..] == table[..INDEX_ENTRY_SIZE * TOTAL];
  }
}
