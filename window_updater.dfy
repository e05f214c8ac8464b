/**
 * The region-to-window copy of src/worker/voxelWindowUpdater.js. The voxel
 * window is a 360 × 360 × 360 byte array (3 × 3 × 3 regions of 120 voxels
 * per side) indexed `x + y·360 + z·360²`. A `copyRegionToSAB` message
 * names one region and its file; the worker copies the core of every chunk
 * of that file to the region's place in the window, writing only the
 * voxels that are not air.
 *
 * The copy is specified cell by cell: `WindowAfter(s, buffer, base, p)` is
 * the window that starts as `s` once the first `p` voxels, in the loops'
 * order (chunks z, y, x outermost, then voxels z, y, x), have been
 * visited.
 */
module VoxelWindow {
  import opened JsNumbers
  import opened Wrappers
  import RegionSchema
  import DenseChunk
  import DenseRegion
  import WorldLoader

  const CHUNK_SIZE: nat := 30
  const REGION_SPAN: nat := 120
  /** `WINDOW_SPAN = 3 · REGION_SPAN`. */
  const WINDOW_SPAN: nat := 360
  /** Cells of a window plane, `360²`. */
  const PLANE: nat := 129_600
  /** Cells of the window, `360³`. */
  const WINDOW_BYTES: nat := 46_656_000
  /** Voxels of all the chunks of a region, `64 · 27000`. */
  const REGION_VOXELS: nat := 1_728_000

  /** The window's sizes follow from the region schema. */
  lemma WindowValues()
    ensures CHUNK_SIZE == RegionSchema.CHUNK_SIZE && REGION_SPAN == RegionSchema.REGION_SPAN
    ensures WINDOW_SPAN == 3 * REGION_SPAN && PLANE == WINDOW_SPAN * WINDOW_SPAN && WINDOW_BYTES == PLANE * WINDOW_SPAN
    ensures REGION_VOXELS == DenseRegion.TOTAL * DenseChunk.VOXELS
  {
  }

  /** `voxelIndex(x, y, z, size)`: z-major, x fastest. */
  function VoxelIndex(x: int, y: int, z: int, size: int): int
  {
    x + y * size + z * size * size
  }

  /** `voxelIndex(x, y, z, WINDOW_SPAN)`, with the products written out. */
  function WindowIndex(x: int, y: int, z: int): (w: int)
    ensures w == VoxelIndex(x, y, z, WINDOW_SPAN)
  {
    x + 360 * y + 129_600 * z
  }

  /** The window cell at index `w`: the inverse of `WindowIndex`. */
  function CellOf(w: int): (c: (int, int, int))
    requires 0 <= w < WINDOW_BYTES
    ensures 0 <= c.0 < WINDOW_SPAN && 0 <= c.1 < WINDOW_SPAN && 0 <= c.2 < WINDOW_SPAN
    ensures WindowIndex(c.0, c.1, c.2) == w
  {
    var q := w / 360;
    (w % 360, q % 360, q / 360)
  }

  /** Every window cell has its own index, and the index gives the cell back. */
  lemma CellOfIndex(x: int, y: int, z: int)
    requires 0 <= x < WINDOW_SPAN && 0 <= y < WINDOW_SPAN && 0 <= z < WINDOW_SPAN
    ensures 0 <= WindowIndex(x, y, z) < WINDOW_BYTES
    ensures CellOf(WindowIndex(x, y, z)) == (x, y, z)
  {
    var w := WindowIndex(x, y, z);
    ModUnique(w, 360, y + 360 * z, x);
    ModUnique(y + 360 * z, 360, z, y);
  }

  /** A coordinate inside a region splits into its chunk and its voxel in the chunk. */
  lemma SplitCoordinate(c: int, l: int)
    requires 0 <= l < 30
    ensures (30 * c + l) / 30 == c && (30 * c + l) % 30 == l
  {
    ModUnique(30 * c + l, 30, c, l);
  }

  // ---------------------------------------------------------------- chunk lookup

  /**
   * The worker's `getCoreChunkDataFromRegionBuffer(buffer, cx, cy, cz)`:
   * the offset of the chunk's entry, `null` when it is 0, otherwise
   * `new Uint8Array(buffer, off, 27000)`, a view that throws a `RangeError`
   * when it would reach past the end of the buffer.
   */
  function ChunkView(buffer: seq<byte>, cx: int, cy: int, cz: int): (r: Result<Option<seq<byte>>, WorldLoader.LoadError>)
    ensures r.Ok? && r.value.Some? ==> |r.value.value| == DenseChunk.VOXELS
  {
    var pos := WorldLoader.EntryPosition(cx, cy, cz);
    if pos < 0 || |buffer| < pos + 3 then Err(WorldLoader.RangeError)
    else
      var off := WorldLoader.OffsetField(buffer, pos);
      if off == 0 then Ok(None)
      else if |buffer| < off + DenseChunk.VOXELS then Err(WorldLoader.RangeError)
      else Ok(Some(buffer[off..off + DenseChunk.VOXELS]))
  }

  /**
   * The worker finds the same chunk as the loader's lookup whenever its
   * view does not throw; it throws exactly where the loader would find the
   * entry unreadable or would return a copy cut short by the end of the buffer.
   */
  lemma ViewAgreesWithLoader(buffer: seq<byte>, cx: int, cy: int, cz: int)
    ensures ChunkView(buffer, cx, cy, cz).Ok? ==>
      ChunkView(buffer, cx, cy, cz) == WorldLoader.ChunkDataFromRegionBuffer(buffer, cx, cy, cz)
    ensures ChunkView(buffer, cx, cy, cz).Err? <==>
      var loaded := WorldLoader.ChunkDataFromRegionBuffer(buffer, cx, cy, cz);
      loaded.Err? || (loaded.value.Some? && |loaded.value.value| < DenseChunk.VOXELS)
  {
  }

  // ---------------------------------------------------------------- where each voxel goes

  /** A voxel of a region: voxel `(lx, ly, lz)` of chunk `(cx, cy, cz)`. */
  datatype Voxel = Voxel(cx: int, cy: int, cz: int, lx: int, ly: int, lz: int)

  /** A voxel the loops visit: its chunk in the 4³ grid, its place in the 30³ core. */
  predicate InRegion(v: Voxel)
  {
    DenseRegion.InGrid(v.cx, v.cy, v.cz) && DenseChunk.InBounds(v.lx, v.ly, v.lz)
  }

  /** Where a region sits in the window: its 120³ block lies inside the 360³ window. */
  predicate BaseInWindow(base: (int, int, int))
  {
    && 0 <= base.0 <= 240
    && 0 <= base.1 <= 240
    && 0 <= base.2 <= 240
  }

  /** Whether a window cell lies in the 120³ block of the region at `base`. */
  predicate InBlock(base: (int, int, int), cell: (int, int, int))
  {
    && base.0 <= cell.0 < base.0 + 120
    && base.1 <= cell.1 < base.1 + 120
    && base.2 <= cell.2 < base.2 + 120
  }

  /** The window index voxel `v` is copied to: `base + 30·c + l` on each axis. */
  function Target(base: (int, int, int), v: Voxel): int
  {
    WindowIndex(base.0 + 30 * v.cx + v.lx, base.1 + 30 * v.cy + v.ly, base.2 + 30 * v.cz + v.lz)
  }

  /** The voxel copied to window cell `w`, if the cell is in the region's block. */
  function Locate(base: (int, int, int), w: int): (r: Option<Voxel>)
    requires 0 <= w < WINDOW_BYTES
    ensures r.None? <==> !InBlock(base, CellOf(w))
    ensures r.Some? ==> InRegion(r.value) && Target(base, r.value) == w
  {
    var cell := CellOf(w);
    var rx, ry, rz := cell.0 - base.0, cell.1 - base.1, cell.2 - base.2;
    if InBlock(base, cell) then Some(Voxel(rx / 30, ry / 30, rz / 30, rx % 30, ry % 30, rz % 30))
    else None
  }

  /** Each voxel of the region lands in the window, on a cell that `Locate` maps back to it. */
  lemma LocateTarget(base: (int, int, int), v: Voxel)
    requires BaseInWindow(base) && InRegion(v)
    ensures 0 <= Target(base, v) < WINDOW_BYTES
    ensures Locate(base, Target(base, v)) == Some(v)
  {
    CellOfIndex(base.0 + 30 * v.cx + v.lx, base.1 + 30 * v.cy + v.ly, base.2 + 30 * v.cz + v.lz);
    SplitCoordinate(v.cx, v.lx);
    SplitCoordinate(v.cy, v.ly);
    SplitCoordinate(v.cz, v.lz);
  }

  /** The position of chunk `(cx, cy, cz)` in the worker's loops, z outermost: `linearIndex(cz, cy, cx)`. */
  function ChunkOrder(cx: int, cy: int, cz: int): int
  {
    DenseRegion.LinearIndex(cz, cy, cx)
  }

  /** The chunk visited in position `q`. */
  function ChunkAtOrder(q: int): (c: (int, int, int))
  {
    var u := DenseRegion.UnlinearIndex(q);
    (u.2, u.1, u.0)
  }

  /** The position of voxel `v` in the loops' order: 27000 per chunk before it, then its core index. */
  function Order(v: Voxel): int
  {
    27000 * ChunkOrder(v.cx, v.cy, v.cz) + DenseChunk.Index(v.lx, v.ly, v.lz)
  }

  /** The loops visit each voxel of the region once: no two share a position. */
  lemma OrderInjective(v: Voxel, u: Voxel)
    requires InRegion(v) && InRegion(u) && Order(v) == Order(u)
    ensures v == u
  {
    DenseChunk.IndexInRange(v.lx, v.ly, v.lz);
    DenseChunk.IndexInRange(u.lx, u.ly, u.lz);
    ModUnique(Order(v), 27000, ChunkOrder(v.cx, v.cy, v.cz), DenseChunk.Index(v.lx, v.ly, v.lz));
    ModUnique(Order(u), 27000, ChunkOrder(u.cx, u.cy, u.cz), DenseChunk.Index(u.lx, u.ly, u.lz));
    DenseRegion.LinearIndexInjective(v.cz, v.cy, v.cx, u.cz, u.cy, u.cx);
    DenseChunk.IndexInjective(v.lx, v.ly, v.lz, u.lx, u.ly, u.lz);
  }

  // ---------------------------------------------------------------- the copy, cell by cell

  /** The byte the worker writes for voxel `v`: none when the chunk is not found or the voxel is air. */
  function Written(buffer: seq<byte>, v: Voxel): (r: Option<byte>)
    requires DenseChunk.InBounds(v.lx, v.ly, v.lz)
    ensures r.Some? ==> r.value != 0
  {
    DenseChunk.IndexInRange(v.lx, v.ly, v.lz);
    var view := ChunkView(buffer, v.cx, v.cy, v.cz);
    if view.Ok? && view.value.Some? && view.value.value[DenseChunk.Index(v.lx, v.ly, v.lz)] != 0
    then Some(view.value.value[DenseChunk.Index(v.lx, v.ly, v.lz)])
    else None
  }

  /**
   * Window cell `w`, which held `prev`, once the first `p` voxels of the
   * region at `base` have been visited: the byte written for the voxel that
   * lands on it if that voxel was visited and a byte was written; `prev`
   * otherwise.
   */
  function CellValue(prev: byte, buffer: seq<byte>, base: (int, int, int), w: int, p: int): byte
    requires 0 <= w < WINDOW_BYTES
  {
    var v := Locate(base, w);
    if v.Some? && Order(v.value) < p && Written(buffer, v.value).Some? then Written(buffer, v.value).value
    else prev
  }

  /** The window `s` once the first `p` voxels of the region at `base` have been visited. */
  function WindowAfter(s: seq<byte>, buffer: seq<byte>, base: (int, int, int), p: int): (r: seq<byte>)
    requires |s| == WINDOW_BYTES
    ensures |r| == WINDOW_BYTES
  {
    seq(WINDOW_BYTES, w requires 0 <= w < WINDOW_BYTES => CellValue(s[w], buffer, base, w, p))
  }

  /** Before the first voxel, the window is as it was. */
  lemma NothingVisited(s: seq<byte>, buffer: seq<byte>, base: (int, int, int))
    requires |s| == WINDOW_BYTES
    ensures WindowAfter(s, buffer, base, 0) == s
  {
    forall w | 0 <= w < WINDOW_BYTES
      ensures WindowAfter(s, buffer, base, 0)[w] == s[w]
    {
      var v := Locate(base, w);
      if v.Some? {
        DenseChunk.IndexInRange(v.value.lx, v.value.ly, v.value.lz);
      }
    }
  }

  /**
   * Visiting one more voxel changes at most the cell it lands on: that
   * cell takes the byte written for the voxel, if any.
   */
  lemma CellStep(prev: byte, buffer: seq<byte>, base: (int, int, int), w: int, v: Voxel)
    requires 0 <= w < WINDOW_BYTES && BaseInWindow(base) && InRegion(v)
    ensures CellValue(prev, buffer, base, w, Order(v) + 1)
      == if w == Target(base, v) && Written(buffer, v).Some? then Written(buffer, v).value
         else CellValue(prev, buffer, base, w, Order(v))
  {
    LocateTarget(base, v);
    var u := Locate(base, w);
    if w != Target(base, v) && u.Some? && Order(u.value) == Order(v) {
      OrderInjective(u.value, v);
    }
  }

  /** `WindowAfter` advanced by one voxel: the voxel's cell written, or nothing for an air voxel or a missing chunk. */
  lemma WindowStep(s: seq<byte>, buffer: seq<byte>, base: (int, int, int), v: Voxel)
    requires |s| == WINDOW_BYTES && BaseInWindow(base) && InRegion(v)
    ensures 0 <= Target(base, v) < WINDOW_BYTES
    ensures WindowAfter(s, buffer, base, Order(v) + 1)
      == if Written(buffer, v).Some? then WindowAfter(s, buffer, base, Order(v))[Target(base, v) := Written(buffer, v).value]
         else WindowAfter(s, buffer, base, Order(v))
  {
    LocateTarget(base, v);
    forall w | 0 <= w < WINDOW_BYTES
      ensures WindowAfter(s, buffer, base, Order(v) + 1)[w]
        == if w == Target(base, v) && Written(buffer, v).Some? then Written(buffer, v).value
           else WindowAfter(s, buffer, base, Order(v))[w]
    {
      CellStep(s[w], buffer, base, w, v);
    }
  }

  /** A chunk the file does not hold (offset 0) leaves the window as it was. */
  lemma WindowSkip(s: seq<byte>, buffer: seq<byte>, base: (int, int, int), cx: int, cy: int, cz: int, q: int)
    requires |s| == WINDOW_BYTES && DenseRegion.InGrid(cx, cy, cz) && q == ChunkOrder(cx, cy, cz)
    requires ChunkView(buffer, cx, cy, cz) == Ok(None)
    ensures WindowAfter(s, buffer, base, 27000 * q + 27000) == WindowAfter(s, buffer, base, 27000 * q)
  {
    forall w | 0 <= w < WINDOW_BYTES
      ensures CellValue(s[w], buffer, base, w, 27000 * q + 27000) == CellValue(s[w], buffer, base, w, 27000 * q)
    {
      CellSkip(s[w], buffer, base, w, cx, cy, cz, q);
    }
  }

  /** One cell of the window: visiting the voxels of a chunk the file does not hold leaves it as it was. */
  lemma CellSkip(prev: byte, buffer: seq<byte>, base: (int, int, int), w: int, cx: int, cy: int, cz: int, q: int)
    requires 0 <= w < WINDOW_BYTES && DenseRegion.InGrid(cx, cy, cz) && q == ChunkOrder(cx, cy, cz)
    requires ChunkView(buffer, cx, cy, cz) == Ok(None)
    ensures CellValue(prev, buffer, base, w, 27000 * q + 27000) == CellValue(prev, buffer, base, w, 27000 * q)
  {
    var u := Locate(base, w);
    if u.Some? {
      DenseChunk.IndexInRange(u.value.lx, u.value.ly, u.value.lz);
      if ChunkOrder(u.value.cx, u.value.cy, u.value.cz) == q {
        DenseRegion.LinearIndexInjective(cz, cy, cx, u.value.cz, u.value.cy, u.value.cx);
      }
    }
  }

  /**
   * Once voxel `v` has been visited, the cell it lands on holds the byte
   * written for it, or its old value when the chunk was not found or the
   * voxel is air.
   */
  lemma VoxelCopied(s: seq<byte>, buffer: seq<byte>, base: (int, int, int), p: int, v: Voxel)
    requires |s| == WINDOW_BYTES && BaseInWindow(base) && InRegion(v) && Order(v) < p
    ensures 0 <= Target(base, v) < WINDOW_BYTES
    ensures WindowAfter(s, buffer, base, p)[Target(base, v)]
      == if Written(buffer, v).Some? then Written(buffer, v).value else s[Target(base, v)]
  {
    LocateTarget(base, v);
  }

  /** Cells outside the region's 120³ block are never written. */
  lemma OutsideUntouched(s: seq<byte>, buffer: seq<byte>, base: (int, int, int), p: int, x: int, y: int, z: int)
    requires |s| == WINDOW_BYTES
    requires 0 <= x < WINDOW_SPAN && 0 <= y < WINDOW_SPAN && 0 <= z < WINDOW_SPAN && !InBlock(base, (x, y, z))
    ensures WindowAfter(s, buffer, base, p)[WindowIndex(x, y, z)] == s[WindowIndex(x, y, z)]
  {
    CellOfIndex(x, y, z);
  }

  // ---------------------------------------------------------------- failures

  /** Whether every chunk before position `q` in the loops' order can be looked up without throwing. */
  predicate FoundBefore(buffer: seq<byte>, q: int)
  {
    forall k :: 0 <= k < q ==> ChunkView(buffer, ChunkAtOrder(k).0, ChunkAtOrder(k).1, ChunkAtOrder(k).2).Ok?
  }

  /** The first position, from `q` on, whose chunk lookup throws; 64 when there is none. */
  function FailureFrom(buffer: seq<byte>, q: nat): (f: nat)
    requires q <= DenseRegion.TOTAL
    ensures q <= f <= DenseRegion.TOTAL
    ensures f < DenseRegion.TOTAL ==> ChunkView(buffer, ChunkAtOrder(f).0, ChunkAtOrder(f).1, ChunkAtOrder(f).2).Err?
    ensures forall k :: q <= k < f ==> ChunkView(buffer, ChunkAtOrder(k).0, ChunkAtOrder(k).1, ChunkAtOrder(k).2).Ok?
    decreases DenseRegion.TOTAL - q
  {
    if q == DenseRegion.TOTAL then q
    else if ChunkView(buffer, ChunkAtOrder(q).0, ChunkAtOrder(q).1, ChunkAtOrder(q).2).Err? then q
    else FailureFrom(buffer, q + 1)
  }

  /** The position of the first chunk whose lookup throws, or 64. */
  function FirstFailure(buffer: seq<byte>): nat
  {
    FailureFrom(buffer, 0)
  }

  /** A lookup that throws after all earlier ones succeeded is the first failure. */
  lemma FirstFailureAt(buffer: seq<byte>, q: nat)
    requires q <= DenseRegion.TOTAL && FoundBefore(buffer, q)
    requires q < DenseRegion.TOTAL ==> ChunkView(buffer, ChunkAtOrder(q).0, ChunkAtOrder(q).1, ChunkAtOrder(q).2).Err?
    ensures FirstFailure(buffer) == q
  {
  }

  /** One more chunk found extends the run of chunks found. */
  lemma FoundNext(buffer: seq<byte>, q: int)
    requires FoundBefore(buffer, q)
    requires ChunkView(buffer, ChunkAtOrder(q).0, ChunkAtOrder(q).1, ChunkAtOrder(q).2).Ok?
    ensures FoundBefore(buffer, q + 1)
  {
  }

  /** The chunk of the loop counters `(cx, cy, cz)` is the chunk visited at their position. */
  lemma ChunkAtItsOrder(cx: int, cy: int, cz: int)
    requires DenseRegion.InGrid(cx, cy, cz)
    ensures 0 <= ChunkOrder(cx, cy, cz) < DenseRegion.TOTAL
    ensures ChunkAtOrder(ChunkOrder(cx, cy, cz)) == (cx, cy, cz)
  {
    DenseRegion.UnlinearOfLinear(cz, cy, cx);
  }

  // ---------------------------------------------------------------- the worker

  /** The `type` of a message: `copyRegionToSAB`, or anything else. */
  datatype MessageType = CopyRegionToSab | OtherType

  /**
   * A message: its type, the `regionBuffers` object (each key given by the
   * region coordinates it names, each value a file or `null`), the window
   * origin and the request id.
   */
  datatype Message = Message(
    msgType: MessageType,
    regionBuffers: Option<seq<((int, int, int), Option<seq<byte>>)>>,
    windowOrigin: (int, int, int),
    id: int)

  /** What the worker did with a message. */
  datatype Outcome = Ignored | Replied(id: int) | Threw(error: WorldLoader.LoadError)

  /** The keys of `regionBuffers`, none when it is missing. */
  function KeyCount(msg: Message): nat
  {
    if msg.regionBuffers.Some? then |msg.regionBuffers.value| else 0
  }

  /** A message whose one region has a non-empty file to copy. */
  predicate HasRegionData(msg: Message)
  {
    && msg.msgType == CopyRegionToSab && KeyCount(msg) == 1
    && msg.regionBuffers.value[0].1.Some? && |msg.regionBuffers.value[0].1.value| > 0
  }

  /** The corner of the message's region in the window: `(r − windowOrigin) · 120` on each axis. */
  function RegionBase(msg: Message): (int, int, int)
    requires msg.regionBuffers.Some? && |msg.regionBuffers.value| >= 1
  {
    var r := msg.regionBuffers.value[0].0;
    ((r.0 - msg.windowOrigin.0) * REGION_SPAN, (r.1 - msg.windowOrigin.1) * REGION_SPAN, (r.2 - msg.windowOrigin.2) * REGION_SPAN)
  }

  /**
   * `self.onmessage` of the worker: other message types are ignored; a
   * message without exactly one region, or whose region has no file,
   * is answered at once; otherwise every chunk of the file is copied and
   * the reply is posted, unless a chunk lookup throws, which ends the
   * handler with the chunks before it copied and no reply.
   */
  method OnMessage(msg: Message, dst: array<byte>) returns (outcome: Outcome)
    requires dst.Length == WINDOW_BYTES
    requires HasRegionData(msg) ==> BaseInWindow(RegionBase(msg))
    modifies dst
    ensures msg.msgType != CopyRegionToSab ==> outcome == Ignored && dst[..] == old(dst[..])
    ensures msg.msgType == CopyRegionToSab && !HasRegionData(msg) ==> outcome == Replied(msg.id) && dst[..] == old(dst[..])
    ensures HasRegionData(msg) ==>
      var buffer := msg.regionBuffers.value[0].1.value;
      var f := FirstFailure(buffer);
      && dst[..] == WindowAfter(old(dst[..]), buffer, RegionBase(msg), f * DenseChunk.VOXELS)
      && outcome == if f == DenseRegion.TOTAL then Replied(msg.id) else Threw(WorldLoader.RangeError)
  {
    if msg.msgType != CopyRegionToSab {
      return Ignored;
    }
    if KeyCount(msg) != 1 {
      return Replied(msg.id);
    }
    var regionBuffer := msg.regionBuffers.value[0].1;
    if regionBuffer.None? || |regionBuffer.value| == 0 {
      return Replied(msg.id);
    }
    var r := CopyRegion(dst, regionBuffer.value, RegionBase(msg));
    if r.Err? {
      return Threw(r.error);
    }
    return Replied(msg.id);
  }

  /** One turn of the chunk loops: chunk `(cx, cy, cz)` copied when found, skipped when not held; a throwing lookup is the first failure. */
  method VisitChunk(dst: array<byte>, ghost s: seq<byte>, buffer: seq<byte>, base: (int, int, int),
                    cx: int, cy: int, cz: int, ghost q: int) returns (r: Result<(), WorldLoader.LoadError>)
    requires dst.Length == WINDOW_BYTES && |s| == WINDOW_BYTES && BaseInWindow(base) && DenseRegion.InGrid(cx, cy, cz)
    requires q == ChunkOrder(cx, cy, cz) && FoundBefore(buffer, q) && dst[..] == WindowAfter(s, buffer, base, 27000 * q)
    modifies dst
    ensures r.Ok? ==> FoundBefore(buffer, q + 1) && dst[..] == WindowAfter(s, buffer, base, 27000 * q + 27000)
    ensures r.Err? ==> FirstFailure(buffer) == q && dst[..] == old(dst[..])
  {
    ChunkAtItsOrder(cx, cy, cz);
    var chunk := ChunkView(buffer, cx, cy, cz);
    if chunk.Err? {
      FirstFailureAt(buffer, q);
      return Err(chunk.error);
    }
    FoundNext(buffer, q);
    if chunk.value.Some? {
      CopyChunk(dst, s, buffer, base, cx, cy, cz, chunk.value.value, q);
    } else {
      WindowSkip(s, buffer, base, cx, cy, cz, q);
    }
    r := Ok(());
  }

  /** The `cx` loop for chunk row `(cy, cz)`: its four chunks in turn, until a lookup throws. */
  method VisitRowOfChunks(dst: array<byte>, ghost s: seq<byte>, buffer: seq<byte>, base: (int, int, int),
                          cy: int, cz: int) returns (r: Result<(), WorldLoader.LoadError>)
    requires dst.Length == WINDOW_BYTES && |s| == WINDOW_BYTES && BaseInWindow(base)
    requires 0 <= cy < DenseRegion.GRID && 0 <= cz < DenseRegion.GRID
    requires FoundBefore(buffer, 16 * cz + 4 * cy) && dst[..] == WindowAfter(s, buffer, base, 27000 * (16 * cz + 4 * cy))
    modifies dst
    ensures r.Ok? ==> FoundBefore(buffer, 16 * cz + 4 * cy + 4) && dst[..] == WindowAfter(s, buffer, base, 27000 * (16 * cz + 4 * cy + 4))
    ensures r.Err? ==> FirstFailure(buffer) < DenseRegion.TOTAL && dst[..] == WindowAfter(s, buffer, base, 27000 * FirstFailure(buffer))
  {
    var cx := 0;
    while cx < DenseRegion.GRID
      invariant 0 <= cx <= DenseRegion.GRID && FoundBefore(buffer, 16 * cz + 4 * cy + cx)
      invariant dst[..] == WindowAfter(s, buffer, base, 27000 * (16 * cz + 4 * cy + cx))
    {
      var step := VisitChunk(dst, s, buffer, base, cx, cy, cz, 16 * cz + 4 * cy + cx);
      if step.Err? {
        return step;
      }
      cx := cx + 1;
    }
    r := Ok(());
  }

  /** The chunk loops of the handler: each chunk found is copied, a chunk not held is skipped, a throwing lookup ends the copy. */
  method CopyRegion(dst: array<byte>, buffer: seq<byte>, base: (int, int, int)) returns (r: Result<(), WorldLoader.LoadError>)
    requires dst.Length == WINDOW_BYTES && BaseInWindow(base)
    modifies dst
    ensures dst[..] == WindowAfter(old(dst[..]), buffer, base, 27000 * FirstFailure(buffer))
    ensures r.Ok? <==> FirstFailure(buffer) == DenseRegion.TOTAL
  {
    ghost var s := dst[..];
    NothingVisited(s, buffer, base);
    var cz := 0;
    while cz < DenseRegion.GRID
      invariant 0 <= cz <= DenseRegion.GRID && FoundBefore(buffer, 16 * cz)
      invariant dst[..] == WindowAfter(s, buffer, base, 27000 * (16 * cz))
    {
      var cy := 0;
      while cy < DenseRegion.GRID
        invariant 0 <= cy <= DenseRegion.GRID && FoundBefore(buffer, 16 * cz + 4 * cy)
        invariant dst[..] == WindowAfter(s, buffer, base, 27000 * (16 * cz + 4 * cy))
      {
        var row := VisitRowOfChunks(dst, s, buffer, base, cy, cz);
        if row.Err? {
          return row;
        }
        cy := cy + 1;
      }
      cz := cz + 1;
    }
    FirstFailureAt(buffer, DenseRegion.TOTAL);
    return Ok(());
  }

  /** The voxel loops for one chunk found in the file. */
  method CopyChunk(dst: array<byte>, ghost s: seq<byte>, ghost buffer: seq<byte>, base: (int, int, int),
                   cx: int, cy: int, cz: int, chunk: seq<byte>, ghost q: int)
    requires dst.Length == WINDOW_BYTES && |s| == WINDOW_BYTES && BaseInWindow(base) && DenseRegion.InGrid(cx, cy, cz)
    requires ChunkView(buffer, cx, cy, cz) == Ok(Some(chunk))
    requires q == ChunkOrder(cx, cy, cz) && dst[..] == WindowAfter(s, buffer, base, 27000 * q)
    modifies dst
    ensures dst[..] == WindowAfter(s, buffer, base, 27000 * q + 27000)
  {
    var chunkBaseX := base.0 + cx * 30;
    var chunkBaseY := base.1 + cy * 30;
    var chunkBaseZ := base.2 + cz * 30;
    ghost var p0 := 27000 * q;
    var lz := 0;
    while lz < CHUNK_SIZE
      invariant 0 <= lz <= CHUNK_SIZE
      invariant dst[..] == WindowAfter(s, buffer, base, p0 + 900 * lz)
    {
      var ly := 0;
      while ly < CHUNK_SIZE
        invariant 0 <= ly <= CHUNK_SIZE
        invariant dst[..] == WindowAfter(s, buffer, base, p0 + 900 * lz + 30 * ly)
      {
        var src := VoxelIndex(0, ly, lz, 30);
        var di := VoxelIndex(chunkBaseX, chunkBaseY + ly, chunkBaseZ + lz, 360);
        CopyRow(dst, s, buffer, base, cx, cy, cz, ly, lz, chunk, src, di, p0 + 900 * lz + 30 * ly);
        ly := ly + 1;
      }
      lz := lz + 1;
    }
  }

  /** The innermost loop: one row of 30 voxels, written only where they are not air. */
  method CopyRow(dst: array<byte>, ghost s: seq<byte>, ghost buffer: seq<byte>, base: (int, int, int),
                 cx: int, cy: int, cz: int, ly: int, lz: int, chunk: seq<byte>, src0: int, di0: int, ghost p0: int)
    requires dst.Length == WINDOW_BYTES && |s| == WINDOW_BYTES && BaseInWindow(base) && DenseRegion.InGrid(cx, cy, cz)
    requires 0 <= ly < CHUNK_SIZE && 0 <= lz < CHUNK_SIZE
    requires ChunkView(buffer, cx, cy, cz) == Ok(Some(chunk))
    requires src0 == DenseChunk.Index(0, ly, lz) && di0 == Target(base, Voxel(cx, cy, cz, 0, ly, lz))
    requires p0 == Order(Voxel(cx, cy, cz, 0, ly, lz)) && dst[..] == WindowAfter(s, buffer, base, p0)
    modifies dst
    ensures dst[..] == WindowAfter(s, buffer, base, p0 + 30)
  {
    var src, di := src0, di0;
    var lx := 0;
    while lx < CHUNK_SIZE
      invariant 0 <= lx <= CHUNK_SIZE
      invariant src == DenseChunk.Index(lx, ly, lz) && di == Target(base, Voxel(cx, cy, cz, lx, ly, lz))
      invariant dst[..] == WindowAfter(s, buffer, base, Order(Voxel(cx, cy, cz, lx, ly, lz)))
    {
      WindowStep(s, buffer, base, Voxel(cx, cy, cz, lx, ly, lz));
      var v := chunk[src];
      src := src + 1;
      if v != 0 {
        dst[di] := v;
      }
      di := di + 1;
      lx := lx + 1;
    }
  }
}
