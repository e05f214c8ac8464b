/**
 * The dense chunk of the "VOXL" stack (src/world/chunk.js): 30 × 30 × 30
 * voxels of one byte each, 0 being air, stored in a `Uint8Array` at index
 * `x + 30 y + 900 z`.
 *
 * The class keeps the byte array it was given (so two chunks, or a chunk
 * and its caller, may share one array). Reads outside the chunk give 0 and
 * writes outside it do nothing. Every stored value is truncated to a byte.
 * Contents are specified as functions of the byte sequence `voxels[..]`.
 */
module DenseChunk {
  import opened JsNumbers
  import opened Wrappers
  import RegionSchema
  import Bytes

  /** `Chunk.SIZE`: voxels per side, the schema's chunk size (see `SizesAgree`). */
  const SIZE: nat := 30
  /** `Chunk.VOXELS`: voxels per chunk, `SIZE³`. */
  const VOXELS: nat := 27000

  /** The chunk's dimensions are the schema's. */
  lemma SizesAgree()
    ensures SIZE == RegionSchema.CHUNK_SIZE && VOXELS == SIZE * SIZE * SIZE == RegionSchema.CHUNK_BYTES
  {
  }

  // ---------------------------------------------------------------- coordinates

  /** `Chunk.index(x, y, z)`, written with the values of `SIZE` and `SIZE²`. */
  function Index(x: int, y: int, z: int): int
  {
    x + 30 * y + 900 * z
  }

  /** `inBounds(x, y, z)`. */
  predicate InBounds(x: int, y: int, z: int)
  {
    0 <= x < SIZE && 0 <= y < SIZE && 0 <= z < SIZE
  }

  /** The voxel stored at index `i`: the inverse of `Index`. */
  function Coords(i: nat): (p: (int, int, int))
    ensures 0 <= p.0 < SIZE && 0 <= p.1 < SIZE && 0 <= p.2
    ensures i < VOXELS ==> p.2 < SIZE
  {
    (i % 30, (i / 30) % 30, i / 900)
  }

  /** Every voxel of the chunk has its own index inside the array, and the index gives the voxel back. */
  lemma CoordsOfIndex(x: int, y: int, z: int)
    requires InBounds(x, y, z)
    ensures 0 <= Index(x, y, z) < VOXELS
    ensures Coords(Index(x, y, z)).0 == x && Coords(Index(x, y, z)).1 == y && Coords(Index(x, y, z)).2 == z
  {
    var i := Index(x, y, z);
    ModUnique(i, 30, y + 30 * z, x);
    ModUnique(y + 30 * z, 30, z, y);
    ModUnique(i, 900, z, x + 30 * y);
  }

  /** Every index of the array is the index of the voxel it decodes to. */
  lemma IndexOfCoords(i: nat)
    requires i < VOXELS
    ensures InBounds(Coords(i).0, Coords(i).1, Coords(i).2)
    ensures Index(Coords(i).0, Coords(i).1, Coords(i).2) == i
  {
    var q := i / 30;
    assert i == 30 * q + i % 30;
    assert q == 30 * (q / 30) + q % 30;
    ModUnique(i, 900, q / 30, i % 30 + 30 * (q % 30));
  }

  /** Every voxel of the chunk has its index inside the array. */
  lemma IndexInRange(x: int, y: int, z: int)
    requires InBounds(x, y, z)
    ensures 0 <= Index(x, y, z) < VOXELS
  {
  }

  /** Two voxels of the chunk share an index only when they are the same voxel. */
  lemma IndexInjective(x1: int, y1: int, z1: int, x2: int, y2: int, z2: int)
    requires InBounds(x1, y1, z1) && InBounds(x2, y2, z2)
    ensures Index(x1, y1, z1) == Index(x2, y2, z2) ==> x1 == x2 && y1 == y2 && z1 == z2
  {
  }

  // ---------------------------------------------------------------- contents

  /** What `get(x, y, z)` reads from contents `s`: the voxel, or 0 outside the chunk. */
  function At(s: seq<byte>, x: int, y: int, z: int): byte
    requires |s| == VOXELS
  {
    if InBounds(x, y, z) then
      CoordsOfIndex(x, y, z);
      s[Index(x, y, z)]
    else 0
  }

  /** The contents after `set(x, y, z, v)`: the voxel holds `v & 0xFF`; outside the chunk nothing changes. */
  function Stored(s: seq<byte>, x: int, y: int, z: int, v: int): (r: seq<byte>)
    requires |s| == VOXELS
    ensures |r| == VOXELS
  {
    if InBounds(x, y, z) then
      CoordsOfIndex(x, y, z);
      s[Index(x, y, z) := ToUint8(v)]
    else s
  }

  /** After `set`, `get` reads the byte of the stored value at that voxel and what it read before everywhere else. */
  lemma AtStored(s: seq<byte>, x: int, y: int, z: int, v: int, x': int, y': int, z': int)
    requires |s| == VOXELS
    ensures At(Stored(s, x, y, z, v), x', y', z') ==
      if InBounds(x, y, z) && x' == x && y' == y && z' == z then ToUint8(v) else At(s, x', y', z')
  {
    if InBounds(x, y, z) && InBounds(x', y', z') {
      IndexInjective(x, y, z, x', y', z');
    }
  }

  /** The contents after `fill(v)`: every voxel holds `v & 0xFF`. */
  function Filled(v: int): (r: seq<byte>)
    ensures |r| == VOXELS
  {
    seq(VOXELS, _ => ToUint8(v))
  }

  /** The histogram of contents `s`: entry `v` is the number of voxels holding `v`. */
  function Hist(s: seq<byte>): (h: seq<nat>)
    ensures |h| == 256
  {
    seq(256, v => multiset(s)[v])
  }

  /** The sum of a sequence of counts. */
  function Sum(h: seq<nat>): nat
  {
    if h == [] then 0 else Sum(h[..|h| - 1]) + h[|h| - 1]
  }

  /** One more voxel adds one to its own entry of the histogram. */
  lemma HistStep(s: seq<byte>, x: byte)
    ensures Hist(s + [x]) == Hist(s)[x := Hist(s)[x] + 1]
  {
    assert multiset(s + [x]) == multiset(s) + multiset{x};
  }

  /** Adding one to one entry adds one to the sum. */
  lemma {:induction false} SumBump(h: seq<nat>, x: nat)
    requires x < |h|
    ensures Sum(h[x := h[x] + 1]) == Sum(h) + 1
  {
    var h' := h[x := h[x] + 1];
    assert h'[..|h| - 1] == if x < |h| - 1 then h[..|h| - 1][x := h[x] + 1] else h[..|h| - 1];
    if x < |h| - 1 {
      SumBump(h[..|h| - 1], x);
    }
  }

  /** The histogram's entries add up to the number of voxels. */
  lemma {:induction false} HistSum(s: seq<byte>)
    ensures Sum(Hist(s)) == |s|
  {
    if s == [] {
      assert Hist(s) == seq(256, _ => 0);
      ZeroSum(256);
    } else {
      var p, x := s[..|s| - 1], s[|s| - 1];
      assert s == p + [x];
      HistSum(p);
      HistStep(p, x);
      SumBump(Hist(p), x);
    }
  }

  /** A run of zero counts sums to zero. */
  lemma {:induction false} ZeroSum(n: nat)
    ensures Sum(seq(n, _ => 0)) == 0
  {
    if n > 0 {
      assert seq(n, _ => 0)[..n - 1] == seq(n - 1, _ => 0);
      ZeroSum(n - 1);
    }
  }

  /** The contents after `mapInPlace(fn)`: each voxel replaced by `fn(value, x, y, z, index) & 0xFF`. */
  function Mapped(s: seq<byte>, fn: (byte, int, int, int, int) -> int): (r: seq<byte>)
    requires |s| == VOXELS
    ensures |r| == VOXELS
  {
    seq<byte>(VOXELS, i requires 0 <= i < VOXELS => ToUint8(fn(s[i], Coords(i).0, Coords(i).1, Coords(i).2, i)))
  }

  /** `mapInPlace` calls `fn` on each voxel with that voxel's own coordinates and index. */
  lemma MappedAt(s: seq<byte>, fn: (byte, int, int, int, int) -> int, x: int, y: int, z: int)
    requires |s| == VOXELS && InBounds(x, y, z)
    ensures At(Mapped(s, fn), x, y, z) == ToUint8(fn(At(s, x, y, z), x, y, z, Index(x, y, z)))
  {
    CoordsOfIndex(x, y, z);
  }

  /** `uint8[k]` on the core data; a read past its end is `undefined`, which `& 0xFF` turns into 0. */
  function CoreByte(u: seq<byte>, k: int): byte
  {
    if 0 <= k < |u| then u[k] else 0
  }

  /**
   * Voxel `i` of `fromCoreData(u)` after the core elements below `k` are
   * placed: element `(cx, cy, cz)` goes to voxel `(cx + 1, cy + 1, cz + 1)`.
   */
  function ShiftedVoxel(u: seq<byte>, i: nat, k: int): byte
  {
    var p := Coords(i);
    if p.0 >= 1 && p.1 >= 1 && p.2 >= 1 && Index(p.0 - 1, p.1 - 1, p.2 - 1) < k
    then CoreByte(u, Index(p.0 - 1, p.1 - 1, p.2 - 1)) else 0
  }

  /** The contents of `fromCoreData(u)` after the core elements below `k` are placed. */
  function ShiftedUpTo(u: seq<byte>, k: int): (r: seq<byte>)
    ensures |r| == VOXELS
  {
    seq(VOXELS, i requires 0 <= i < VOXELS => ShiftedVoxel(u, i, k))
  }

  /** The contents of `fromCoreData(u)`. */
  function FromCore(u: seq<byte>): (r: seq<byte>)
    ensures |r| == VOXELS
  {
    ShiftedUpTo(u, VOXELS)
  }

  /** Placing core element `k`, the one at `(cx, cy, cz)`, with `set(cx + 1, cy + 1, cz + 1, …)`. */
  lemma ShiftStep(u: seq<byte>, cx: int, cy: int, cz: int, k: int)
    requires InBounds(cx, cy, cz) && k == Index(cx, cy, cz)
    ensures Stored(ShiftedUpTo(u, k), cx + 1, cy + 1, cz + 1, CoreByte(u, k)) == ShiftedUpTo(u, k + 1)
  {
    var before, after := ShiftedUpTo(u, k), ShiftedUpTo(u, k + 1);
    var r := Stored(before, cx + 1, cy + 1, cz + 1, CoreByte(u, k));
    forall i | 0 <= i < VOXELS
      ensures r[i] == after[i]
    {
      IndexOfCoords(i);
      var p := Coords(i);
      if p.0 >= 1 && p.1 >= 1 && p.2 >= 1 {
        IndexInjective(p.0 - 1, p.1 - 1, p.2 - 1, cx, cy, cz);
      }
      if InBounds(cx + 1, cy + 1, cz + 1) {
        IndexInjective(p.0, p.1, p.2, cx + 1, cy + 1, cz + 1);
      }
    }
  }

  /**
   * `fromCoreData` moves every element one voxel up on each axis: the voxels
   * with a coordinate 0 stay air, and the elements with a coordinate 29 are
   * dropped.
   */
  lemma FromCoreShifts(u: seq<byte>, x: int, y: int, z: int)
    requires InBounds(x, y, z)
    ensures At(FromCore(u), x, y, z) ==
      if x >= 1 && y >= 1 && z >= 1 then CoreByte(u, Index(x - 1, y - 1, z - 1)) else 0
  {
    CoordsOfIndex(x, y, z);
    var i := Index(x, y, z);
    assert At(FromCore(u), x, y, z) == ShiftedVoxel(u, i, VOXELS);
    if x >= 1 && y >= 1 && z >= 1 {
      IndexInRange(x - 1, y - 1, z - 1);
    }
  }

  /** An element of the core data on a plane with coordinate 29 has no effect on `fromCoreData`. */
  lemma FromCoreDropsLastPlanes(u: seq<byte>, cx: int, cy: int, cz: int, b: byte)
    requires InBounds(cx, cy, cz) && (cx == 29 || cy == 29 || cz == 29)
    requires Index(cx, cy, cz) < |u|
    ensures FromCore(u[Index(cx, cy, cz) := b]) == FromCore(u)
  {
    var u' := u[Index(cx, cy, cz) := b];
    forall i | 0 <= i < VOXELS
      ensures FromCore(u')[i] == FromCore(u)[i]
    {
      var p := Coords(i);
      if p.0 >= 1 && p.1 >= 1 && p.2 >= 1 {
        IndexInjective(p.0 - 1, p.1 - 1, p.2 - 1, cx, cy, cz);
      }
    }
  }

  /**
   * `fromCoreData` does not undo `toCoreData`: a chunk whose only solid
   * voxel is `(0, 0, 0)` comes back with that voxel moved to `(1, 1, 1)`.
   */
  lemma CoreDataDoesNotRoundTrip()
    ensures var s := Filled(0)[0 := 1]; FromCore(s) == Filled(0)[Index(1, 1, 1) := 1] && FromCore(s) != s
  {
    var s := Filled(0)[0 := 1];
    var r := FromCore(s);
    var moved := Index(1, 1, 1);
    forall i | 0 <= i < VOXELS
      ensures r[i] == if i == moved then 1 else 0
    {
      IndexOfCoords(i);
      var (x, y, z) := Coords(i);
      LoneVoxelMoves(x, y, z);
      IndexInjective(x, y, z, 1, 1, 1);
    }
    assert r == Filled(0)[moved := 1];
    assert r[0] != s[0];
  }

  /** The voxels of `fromCoreData` of a chunk whose only solid voxel is `(0, 0, 0)`. */
  lemma LoneVoxelMoves(x: int, y: int, z: int)
    requires InBounds(x, y, z)
    ensures At(FromCore(Filled(0)[0 := 1]), x, y, z) == if x == 1 && y == 1 && z == 1 then 1 else 0
  {
    FromCoreShifts(Filled(0)[0 := 1], x, y, z);
    if x >= 1 && y >= 1 && z >= 1 {
      IndexInRange(x - 1, y - 1, z - 1);
      LoneCoreElement(Index(x - 1, y - 1, z - 1));
    }
  }

  /** The core data of a chunk whose only solid voxel is `(0, 0, 0)`: 1 at index 0, 0 elsewhere. */
  lemma LoneCoreElement(j: int)
    requires 0 <= j < VOXELS
    ensures CoreByte(Filled(0)[0 := 1], j) == if j == 0 then 1 else 0
  {
  }

  // ---------------------------------------------------------------- faces

  /** The six faces of the chunk. */
  datatype Side = North | South | West | East | Bottom | Top

  /** The name of a side as `getFace` and `setFace` take it. */
  function SideName(side: Side): string
  {
    match side
    case North => "N"
    case South => "S"
    case West => "W"
    case East => "E"
    case Bottom => "Bottom"
    case Top => "Top"
  }

  /** The `switch (side)` of `getFace` and `setFace`: any other name is an invalid side. */
  function ParseSide(name: string): (r: Option<Side>)
    ensures r.Some? ==> SideName(r.value) == name
  {
    if name == "N" then Some(North)
    else if name == "S" then Some(South)
    else if name == "W" then Some(West)
    else if name == "E" then Some(East)
    else if name == "Bottom" then Some(Bottom)
    else if name == "Top" then Some(Top)
    else None
  }

  /** Every side is recognised by its own name. */
  lemma ParseSideName(side: Side)
    ensures ParseSide(SideName(side)) == Some(side)
  {
  }

  /**
   * The voxel visited at step `(a, b)` of a face's double loop, `a` the
   * outer variable: `y` then `x` for N (`z = 0`) and S (`z = 29`), `y` then
   * `z` for W (`x = 0`) and E (`x = 29`), `z` then `x` for Bottom (`y = 0`)
   * and Top (`y = 29`).
   */
  function FaceVoxel(side: Side, a: int, b: int): (int, int, int)
  {
    match side
    case North => (b, a, 0)
    case South => (b, a, 29)
    case West => (0, a, b)
    case East => (29, a, b)
    case Bottom => (b, 0, a)
    case Top => (b, 29, a)
  }

  /** Voxel `(x, y, z)` lies on the face. */
  predicate OnFace(side: Side, x: int, y: int, z: int)
  {
    match side
    case North => z == 0
    case South => z == 29
    case West => x == 0
    case East => x == 29
    case Bottom => y == 0
    case Top => y == 29
  }

  /** The entry of the face array that holds voxel `(x, y, z)` of the face. */
  function FaceSlot(side: Side, x: int, y: int, z: int): int
  {
    match side
    case North | South => x + 30 * y
    case West | East => z + 30 * y
    case Bottom | Top => x + 30 * z
  }

  /** Step `(a, b)` of the loop visits a voxel of the face, the one held by entry `30 a + b`. */
  lemma FaceVoxelOnFace(side: Side, a: int, b: int)
    requires 0 <= a < SIZE && 0 <= b < SIZE
    ensures var p := FaceVoxel(side, a, b);
      InBounds(p.0, p.1, p.2) && OnFace(side, p.0, p.1, p.2) && FaceSlot(side, p.0, p.1, p.2) == b + 30 * a
  {
  }

  /** Every voxel of the face is held by one entry of the face array, and that entry's step visits it. */
  lemma FaceSlotOnFace(side: Side, x: int, y: int, z: int)
    requires InBounds(x, y, z) && OnFace(side, x, y, z)
    ensures 0 <= FaceSlot(side, x, y, z) < SIZE * SIZE
    ensures var k := FaceSlot(side, x, y, z);
      var p := FaceVoxel(side, k / 30, k % 30); p.0 == x && p.1 == y && p.2 == z
  {
    var k := FaceSlot(side, x, y, z);
    match side
    case North | South => ModUnique(k, 30, y, x);
    case West | East => ModUnique(k, 30, y, z);
    case Bottom | Top => ModUnique(k, 30, z, x);
  }

  /** What `getFace(side)` returns: entry `k` is the voxel that step `(k / 30, k % 30)` visits. */
  function Face(s: seq<byte>, side: Side): (f: seq<byte>)
    requires |s| == VOXELS
    ensures |f| == SIZE * SIZE
  {
    seq(900, k requires 0 <= k < 900 => var p := FaceVoxel(side, k / 30, k % 30); At(s, p.0, p.1, p.2))
  }

  /** The face array holds each voxel of the face at that voxel's entry. */
  lemma FaceAt(s: seq<byte>, side: Side, x: int, y: int, z: int)
    requires |s| == VOXELS && InBounds(x, y, z) && OnFace(side, x, y, z)
    ensures Face(s, side)[FaceSlot(side, x, y, z)] == At(s, x, y, z)
  {
    FaceSlotOnFace(side, x, y, z);
  }

  /** The contents once the entries of `d` below `n` are written to their voxels of the face. */
  function PartialFace(s: seq<byte>, side: Side, d: seq<byte>, n: int): (r: seq<byte>)
    requires |s| == VOXELS && |d| == SIZE * SIZE
    ensures |r| == VOXELS
  {
    seq(VOXELS, i requires 0 <= i < VOXELS =>
      var p := Coords(i);
      if OnFace(side, p.0, p.1, p.2) && FaceSlot(side, p.0, p.1, p.2) < n
      then d[FaceSlot(side, p.0, p.1, p.2)] else s[i])
  }

  /** The contents after `setFace(side, d)`: each voxel of the face holds its entry of `d`, the others are kept. */
  function WithFace(s: seq<byte>, side: Side, d: seq<byte>): (r: seq<byte>)
    requires |s| == VOXELS && |d| == SIZE * SIZE
    ensures |r| == VOXELS
  {
    PartialFace(s, side, d, SIZE * SIZE)
  }

  /** Step `(a, b)` of `setFace` writes entry `30 a + b`. */
  lemma FaceStep(s: seq<byte>, side: Side, d: seq<byte>, a: int, b: int, k: int)
    requires |s| == VOXELS && |d| == SIZE * SIZE
    requires 0 <= a < SIZE && 0 <= b < SIZE && k == b + 30 * a
    ensures var p := FaceVoxel(side, a, b);
      Stored(PartialFace(s, side, d, k), p.0, p.1, p.2, d[k]) == PartialFace(s, side, d, k + 1)
  {
    var p := FaceVoxel(side, a, b);
    FaceVoxelOnFace(side, a, b);
    var before, after := PartialFace(s, side, d, k), PartialFace(s, side, d, k + 1);
    var r := Stored(before, p.0, p.1, p.2, d[k]);
    forall i | 0 <= i < VOXELS
      ensures r[i] == after[i]
    {
      FaceStepAt(s, side, d, p, k, i);
    }
  }

  /** Voxel `i` in `FaceStep`: only the voxel of entry `k` changes. */
  lemma FaceStepAt(s: seq<byte>, side: Side, d: seq<byte>, p: (int, int, int), k: int, i: int)
    requires |s| == VOXELS && |d| == SIZE * SIZE && 0 <= k < SIZE * SIZE && 0 <= i < VOXELS
    requires InBounds(p.0, p.1, p.2) && OnFace(side, p.0, p.1, p.2) && FaceSlot(side, p.0, p.1, p.2) == k
    ensures Stored(PartialFace(s, side, d, k), p.0, p.1, p.2, d[k])[i] == PartialFace(s, side, d, k + 1)[i]
  {
    CoordsOfIndex(p.0, p.1, p.2);
    IndexOfCoords(i);
    var q := Coords(i);
    IndexInjective(q.0, q.1, q.2, p.0, p.1, p.2);
    if OnFace(side, q.0, q.1, q.2) {
      FaceSlotOnFace(side, q.0, q.1, q.2);
      FaceSlotOnFace(side, p.0, p.1, p.2);
    }
  }

  /** `getFace` after `setFace` with the same side returns the data written. */
  lemma FaceRoundTrip(s: seq<byte>, side: Side, d: seq<byte>)
    requires |s| == VOXELS && |d| == SIZE * SIZE
    ensures Face(WithFace(s, side, d), side) == d
  {
    var w := WithFace(s, side, d);
    forall k | 0 <= k < SIZE * SIZE
      ensures Face(w, side)[k] == d[k]
    {
      var a, b := k / 30, k % 30;
      var p := FaceVoxel(side, a, b);
      FaceVoxelOnFace(side, a, b);
      CoordsOfIndex(p.0, p.1, p.2);
    }
  }

  /** `setFace` with the face `getFace` returned leaves the chunk as it was. */
  lemma SetOwnFace(s: seq<byte>, side: Side)
    requires |s| == VOXELS
    ensures WithFace(s, side, Face(s, side)) == s
  {
    var w := WithFace(s, side, Face(s, side));
    forall i | 0 <= i < VOXELS
      ensures w[i] == s[i]
    {
      IndexOfCoords(i);
      var q := Coords(i);
      if OnFace(side, q.0, q.1, q.2) {
        FaceAt(s, side, q.0, q.1, q.2);
      }
    }
  }

  // ---------------------------------------------------------------- boxes

  /** `typedArray.fill(v, start, end)`: the voxels between the two relative indices set to `v`. */
  function FillRange(s: seq<byte>, start: int, end: int, v: byte): (r: seq<byte>)
    ensures |r| == |s|
  {
    var lo, hi := Bytes.RelativeIndex(start, |s|), Bytes.RelativeIndex(end, |s|);
    seq(|s|, i requires 0 <= i < |s| => if lo <= i < hi then v else s[i])
  }

  /** The arguments of `fillBox`: the corners `(x0, y0, z0)` (inclusive) and `(x1, y1, z1)` (exclusive). */
  datatype Box = Box(x0: int, y0: int, z0: int, x1: int, y1: int, z1: int)

  /** The `Math.max(0, …)` and `Math.min(SIZE, …)` that `fillBox` applies to the corners. */
  function Clamp(b: Box): (c: Box)
    ensures 0 <= c.x0 && 0 <= c.y0 && 0 <= c.z0 && c.x1 <= SIZE && c.y1 <= SIZE && c.z1 <= SIZE
  {
    Box(Max(0, b.x0), Max(0, b.y0), Max(0, b.z0), Min(SIZE, b.x1), Min(SIZE, b.y1), Min(SIZE, b.z1))
  }

  function Max(a: int, b: int): int { if a < b then b else a }
  function Min(a: int, b: int): int { if a < b then a else b }

  /** Voxel `(x, y, z)` lies in the box. */
  predicate InBox(b: Box, x: int, y: int, z: int)
  {
    b.x0 <= x < b.x1 && b.y0 <= y < b.y1 && b.z0 <= z < b.z1
  }

  /** The starts `900 z + 30 y` of the rows of layer `z` for `y` in `[y0, y1)`, in loop order. */
  function LayerRows(z: int, y0: int, y1: int): seq<int>
    decreases y1 - y0
  {
    if y1 <= y0 then [] else LayerRows(z, y0, y1 - 1) + [900 * z + 30 * (y1 - 1)]
  }

  /** The starts of the rows `fillBox` visits: `z` in `[z0, z1)` outside, `y` in `[y0, y1)` inside. */
  function BoxRows(y0: int, y1: int, z0: int, z1: int): seq<int>
    decreases z1 - z0
  {
    if z1 <= z0 then [] else BoxRows(y0, y1, z0, z1 - 1) + LayerRows(z1 - 1, y0, y1)
  }

  /** The contents after `fill(v, row + x0, row + x1)` on each row in turn. */
  function FillRows(s: seq<byte>, rows: seq<int>, x0: int, x1: int, v: byte): (r: seq<byte>)
    ensures |r| == |s|
  {
    if rows == [] then s
    else
      var row := rows[|rows| - 1];
      FillRange(FillRows(s, rows[..|rows| - 1], x0, x1, v), row + x0, row + x1, v)
  }

  /** The contents after `fillBox(x0, y0, z0, x1, y1, z1, value)`, as the function is written. */
  function FillBoxResult(s: seq<byte>, b: Box, value: int): (r: seq<byte>)
    ensures |r| == |s|
  {
    var c := Clamp(b);
    FillRows(s, BoxRows(c.y0, c.y1, c.z0, c.z1), c.x0, c.x1, ToUint8(value))
  }

  /** The contents with exactly the voxels of box `b` set to `v`. */
  function BoxFilled(s: seq<byte>, b: Box, v: byte): (r: seq<byte>)
    requires |s| == VOXELS
    ensures |r| == VOXELS
  {
    seq(VOXELS, i requires 0 <= i < VOXELS => var p := Coords(i); if InBox(b, p.0, p.1, p.2) then v else s[i])
  }

  /** Index `i` lies in the range that the `fill` of row `row` covers. */
  predicate RowCovers(len: nat, row: int, x0: int, x1: int, i: int)
  {
    Bytes.RelativeIndex(row + x0, len) <= i < Bytes.RelativeIndex(row + x1, len)
  }

  /** Index `i` lies in the range of one of the rows. */
  predicate InSomeRow(len: nat, rows: seq<int>, x0: int, x1: int, i: int)
  {
    rows != [] && (InSomeRow(len, rows[..|rows| - 1], x0, x1, i) || RowCovers(len, rows[|rows| - 1], x0, x1, i))
  }

  /** Filling rows sets to `v` the indices some row covers and keeps the others. */
  lemma {:induction false} FillRowsAt(s: seq<byte>, rows: seq<int>, x0: int, x1: int, v: byte, i: int)
    requires 0 <= i < |s|
    ensures FillRows(s, rows, x0, x1, v)[i] == if InSomeRow(|s|, rows, x0, x1, i) then v else s[i]
  {
    if rows != [] {
      FillRowsAt(s, rows[..|rows| - 1], x0, x1, v, i);
    }
  }

  /** An index lies in a row of `a + b` when it lies in a row of `a` or in a row of `b`. */
  lemma {:induction false} InSomeRowAppend(len: nat, a: seq<int>, b: seq<int>, x0: int, x1: int, i: int)
    ensures InSomeRow(len, a + b, x0, x1, i) <==> InSomeRow(len, a, x0, x1, i) || InSomeRow(len, b, x0, x1, i)
  {
    if b != [] {
      assert (a + b)[..|a + b| - 1] == a + b[..|b| - 1];
      InSomeRowAppend(len, a, b[..|b| - 1], x0, x1, i);
    } else {
      assert a + b == a;
    }
  }

  /** Within the chunk, the fill of row `(y, z)` with `0 <= x0` and `0 <= x1 <= 30` covers the voxel `(x, y', z')` exactly when `y' == y`, `z' == z` and `x0 <= x < x1`. */
  lemma RowCoversExactly(y: int, z: int, x0: int, x1: int, x: int, y': int, z': int)
    requires 0 <= y < SIZE && 0 <= z < SIZE && 0 <= x0 && 0 <= x1 <= SIZE && InBounds(x, y', z')
    ensures RowCovers(VOXELS, 900 * z + 30 * y, x0, x1, Index(x, y', z')) <==> y' == y && z' == z && x0 <= x < x1
  {
    var row := 900 * z + 30 * y;
    var i := Index(x, y', z');
    assert Bytes.RelativeIndex(row + x1, VOXELS) == row + x1;
    if x0 <= SIZE {
      assert Bytes.RelativeIndex(row + x0, VOXELS) == row + x0;
      if z' != z {
        assert i < row || i >= row + SIZE;
      } else if y' != y {
        assert i < row || i >= row + SIZE;
      }
    }
  }

  /** The rows of layer `z` are the rows `y0`, `y0 + 1`, …, `y1 - 1` of that layer, in order. */
  lemma {:induction false} LayerRowsAt(z: int, y0: int, y1: int)
    requires y0 <= y1
    ensures |LayerRows(z, y0, y1)| == y1 - y0
    ensures forall k :: 0 <= k < y1 - y0 ==> LayerRows(z, y0, y1)[k] == 900 * z + 30 * (y0 + k)
    decreases y1 - y0
  {
    if y0 < y1 {
      LayerRowsAt(z, y0, y1 - 1);
    }
  }

  /** An index lies in a row of `rows` exactly when one of the rows covers it. */
  lemma {:induction false} InSomeRowExists(len: nat, rows: seq<int>, x0: int, x1: int, i: int)
    ensures InSomeRow(len, rows, x0, x1, i) <==> exists k :: 0 <= k < |rows| && RowCovers(len, rows[k], x0, x1, i)
  {
    if rows != [] {
      var front := rows[..|rows| - 1];
      InSomeRowExists(len, front, x0, x1, i);
      if exists k :: 0 <= k < |rows| && RowCovers(len, rows[k], x0, x1, i) {
        var k :| 0 <= k < |rows| && RowCovers(len, rows[k], x0, x1, i);
        if k < |front| {
          assert front[k] == rows[k];
        }
      }
      if InSomeRow(len, front, x0, x1, i) {
        var k :| 0 <= k < |front| && RowCovers(len, front[k], x0, x1, i);
        assert rows[k] == front[k];
      }
    }
  }

  /** Rows `y0`, …, `y0 + |rows| - 1` of layer `z` cover the voxels of that layer with `y` in that range and `x` in `[x0, x1)`. */
  lemma RowsOfLayerCover(rows: seq<int>, z: int, y0: int, x0: int, x1: int, x: int, y': int, z': int)
    requires 0 <= z < SIZE && 0 <= y0 && y0 + |rows| <= SIZE && 0 <= x0 && 0 <= x1 <= SIZE && InBounds(x, y', z')
    requires forall k :: 0 <= k < |rows| ==> rows[k] == 900 * z + 30 * (y0 + k)
    ensures InSomeRow(VOXELS, rows, x0, x1, Index(x, y', z')) <==>
      z' == z && y0 <= y' < y0 + |rows| && x0 <= x < x1
  {
    var i := Index(x, y', z');
    InSomeRowExists(VOXELS, rows, x0, x1, i);
    if InSomeRow(VOXELS, rows, x0, x1, i) {
      var k :| 0 <= k < |rows| && RowCovers(VOXELS, rows[k], x0, x1, i);
      RowCoversExactly(y0 + k, z, x0, x1, x, y', z');
    }
    if z' == z && y0 <= y' < y0 + |rows| && x0 <= x < x1 {
      RowCoversExactly(y', z, x0, x1, x, y', z');
      assert RowCovers(VOXELS, rows[y' - y0], x0, x1, i);
    }
  }

  /** The rows of layer `z` cover the voxels of that layer with `y` in `[y0, y1)` and `x` in `[x0, x1)`. */
  lemma LayerRowsCover(z: int, y0: int, y1: int, x0: int, x1: int, x: int, y': int, z': int)
    requires 0 <= z < SIZE && 0 <= y0 && y1 <= SIZE && 0 <= x0 && 0 <= x1 <= SIZE && InBounds(x, y', z')
    ensures InSomeRow(VOXELS, LayerRows(z, y0, y1), x0, x1, Index(x, y', z')) <==>
      z' == z && y0 <= y' < y1 && x0 <= x < x1
  {
    if y0 <= y1 {
      LayerRowsAt(z, y0, y1);
      RowsOfLayerCover(LayerRows(z, y0, y1), z, y0, x0, x1, x, y', z');
    }
  }

  /** The rows `fillBox` visits cover exactly the voxels of the clamped box, when `x1` is not negative. */
  lemma {:induction false} BoxRowsCover(x0: int, y0: int, z0: int, x1: int, y1: int, z1: int, x: int, y: int, z: int)
    requires 0 <= x0 && 0 <= y0 && 0 <= z0 && 0 <= x1 <= SIZE && y1 <= SIZE && z1 <= SIZE && InBounds(x, y, z)
    ensures InSomeRow(VOXELS, BoxRows(y0, y1, z0, z1), x0, x1, Index(x, y, z)) <==>
      x0 <= x < x1 && y0 <= y < y1 && z0 <= z < z1
    decreases z1 - z0
  {
    if z0 < z1 {
      var front, layer := BoxRows(y0, y1, z0, z1 - 1), LayerRows(z1 - 1, y0, y1);
      assert BoxRows(y0, y1, z0, z1) == front + layer;
      BoxRowsCover(x0, y0, z0, x1, y1, z1 - 1, x, y, z);
      InSomeRowAppend(VOXELS, front, layer, x0, x1, Index(x, y, z));
      LayerRowsCover(z1 - 1, y0, y1, x0, x1, x, y, z);
      assert InSomeRow(VOXELS, front + layer, x0, x1, Index(x, y, z)) <==>
        (x0 <= x < x1 && y0 <= y < y1 && z0 <= z < z1 - 1) || (z == z1 - 1 && y0 <= y < y1 && x0 <= x < x1);
    }
  }

  /** When `x1` is not negative, `fillBox` fills exactly the voxels of the box clipped to the chunk. */
  lemma FillBoxExact(s: seq<byte>, b: Box, value: int)
    requires |s| == VOXELS && b.x1 >= 0
    ensures FillBoxResult(s, b, value) == BoxFilled(s, Clamp(b), ToUint8(value))
  {
    var c := Clamp(b);
    forall i | 0 <= i < VOXELS
      ensures FillBoxResult(s, b, value)[i] == BoxFilled(s, c, ToUint8(value))[i]
    {
      FillRowsAt(s, BoxRows(c.y0, c.y1, c.z0, c.z1), c.x0, c.x1, ToUint8(value), i);
      var p := Coords(i);
      IndexOfCoords(i);
      BoxRowsCover(c.x0, c.y0, c.z0, c.x1, c.y1, c.z1, p.0, p.1, p.2);
    }
  }

  /**
   * `fillBox(0, 0, 0, -1, 1, 1, v)` names an empty box, but the one row it
   * visits is filled with `fill(v, 0, -1)`, whose negative end counts from
   * the end of the array: every voxel but the last is set to `v`.
   */
  lemma FillBoxNegativeEnd(s: seq<byte>, value: int)
    requires |s| == VOXELS
    ensures BoxFilled(s, Clamp(Box(0, 0, 0, -1, 1, 1)), ToUint8(value)) == s
    ensures forall i :: 0 <= i < VOXELS - 1 ==> FillBoxResult(s, Box(0, 0, 0, -1, 1, 1), value)[i] == ToUint8(value)
  {
    var b := Box(0, 0, 0, -1, 1, 1);
    assert Clamp(b) == b;
    EmptyBoxKeeps(s, b, ToUint8(value));
    OneRowBox(s, b, value);
    FillAllButLast(s, ToUint8(value));
  }

  /** `fill(v, 0, -1)` sets every element but the last. */
  lemma FillAllButLast(s: seq<byte>, v: byte)
    requires |s| >= 1
    ensures forall i :: 0 <= i < |s| - 1 ==> FillRange(s, 0, -1, v)[i] == v
    ensures FillRange(s, 0, -1, v)[|s| - 1] == s[|s| - 1]
  {
    assert Bytes.RelativeIndex(0, |s|) == 0 && Bytes.RelativeIndex(-1, |s|) == |s| - 1;
  }

  /** A box with no voxel between its `x` bounds fills nothing. */
  lemma EmptyBoxKeeps(s: seq<byte>, b: Box, v: byte)
    requires |s| == VOXELS && b.x1 <= b.x0
    ensures BoxFilled(s, b, v) == s
  {
  }

  /** A box one row tall and deep, at the chunk's corner, is one `fill` of row 0. */
  lemma OneRowBox(s: seq<byte>, b: Box, value: int)
    requires b.x0 == 0 && b.y0 == 0 && b.z0 == 0 && b.y1 == 1 && b.z1 == 1 && b.x1 <= SIZE
    ensures FillBoxResult(s, b, value) == FillRange(s, 0, b.x1, ToUint8(value))
  {
    OneRowRows(b);
    FillOneRow(s, 0, b.x1, ToUint8(value));
  }

  /** The clamped one-row box at the corner visits row 0 alone, over `[0, x1)`. */
  lemma OneRowRows(b: Box)
    requires b.x0 == 0 && b.y0 == 0 && b.z0 == 0 && b.y1 == 1 && b.z1 == 1 && b.x1 <= SIZE
    ensures var c := Clamp(b); c.x0 == 0 && c.x1 == b.x1 && BoxRows(c.y0, c.y1, c.z0, c.z1) == [0]
  {
    assert Clamp(b) == b;
    assert LayerRows(0, 0, 1) == [0] && BoxRows(0, 1, 0, 0) == [];
  }

  /** Filling row 0 alone is one `fill` from `x0` to `x1`. */
  lemma FillOneRow(s: seq<byte>, x0: int, x1: int, v: byte)
    ensures FillRows(s, [0], x0, x1, v) == FillRange(s, x0, x1, v)
  {
    assert [0][..0] == [];
  }

  /** Row `y` of layer `z` comes right after the rows before it. */
  lemma NextRow(done: seq<int>, z: int, y0: int, y: int)
    requires y0 <= y
    ensures (done + LayerRows(z, y0, y)) + [900 * z + 30 * y] == done + LayerRows(z, y0, y + 1)
  {
  }

  /** Filling one more row is one more `fill` on the result. */
  lemma FillRowsSnoc(s: seq<byte>, rows: seq<int>, row: int, x0: int, x1: int, v: byte)
    ensures FillRows(s, rows + [row], x0, x1, v) == FillRange(FillRows(s, rows, x0, x1, v), row + x0, row + x1, v)
  {
    assert (rows + [row])[..|rows|] == rows;
  }

  // ---------------------------------------------------------------- blits

  /** The `srcBox` of `blitFrom`: corner `(x, y, z)` and extent `w × h × d`. */
  datatype SrcBox = SrcBox(x: int, y: int, z: int, w: int, h: int, d: int)

  /**
   * The row `blitFrom` reads for source row `(sy, sz)`:
   * `subarray(index(x, sy, sz), index(x + w, sy, sz))`, whose bounds are
   * relative indices into the whole array.
   */
  function SourceRow(src: seq<byte>, b: SrcBox, sy: int, sz: int): seq<byte>
  {
    Bytes.Slice(src, Index(b.x, sy, sz), Index(b.x + b.w, sy, sz))
  }

  /**
   * Step `(z, y, x)` of the loops writes a voxel: both rows lie in their
   * chunks, `x` is within the source row, and the destination column lies
   * in the chunk. `o` is the destination origin.
   */
  predicate Writes(src: seq<byte>, b: SrcBox, o: (int, int, int), z: int, y: int, x: int)
  {
    && 0 <= z < b.d && 0 <= b.z + z < SIZE && 0 <= o.2 + z < SIZE
    && 0 <= y < b.h && 0 <= b.y + y < SIZE && 0 <= o.1 + y < SIZE
    && 0 <= x < |SourceRow(src, b, b.y + y, b.z + z)| && 0 <= o.0 + x < SIZE
  }

  /** Step `(z, y, x)` comes before step `(z', y', x')` in loop order. */
  predicate Before(z: int, y: int, x: int, z': int, y': int, x': int)
  {
    z < z' || (z == z' && (y < y' || (y == y' && x < x')))
  }

  /**
   * The contents once the steps before `(z', y', x')` are done: the voxel
   * `o + (x, y, z)` holds entry `x` of source row `(y, z)` when step
   * `(z, y, x)` writes and came earlier; each voxel has only one step that
   * can write it.
   */
  function BlitUpTo(dst: seq<byte>, src: seq<byte>, b: SrcBox, o: (int, int, int), z': int, y': int, x': int): (r: seq<byte>)
    requires |dst| == VOXELS
    ensures |r| == VOXELS
  {
    seq(VOXELS, i requires 0 <= i < VOXELS =>
      var p := Coords(i);
      StepValue(dst[i], src, b, o, p.2 - o.2, p.1 - o.1, p.0 - o.0, z', y', x'))
  }

  /** A voxel whose step is `(z, y, x)`, once the steps before `(z', y', x')` are done. */
  function StepValue(kept: byte, src: seq<byte>, b: SrcBox, o: (int, int, int), z: int, y: int, x: int, z': int, y': int, x': int): byte
  {
    if Writes(src, b, o, z, y, x) && Before(z, y, x, z', y', x')
    then SourceRow(src, b, b.y + y, b.z + z)[x] else kept
  }

  /** The contents after `blitFrom(src, b, o)`: every step done. */
  function Blitted(dst: seq<byte>, src: seq<byte>, b: SrcBox, o: (int, int, int)): (r: seq<byte>)
    requires |dst| == VOXELS
    ensures |r| == VOXELS
  {
    BlitUpTo(dst, src, b, o, Max(b.d, 0), 0, 0)
  }

  /** A layer whose source or destination lies outside the chunk writes nothing. */
  lemma SkippedLayer(dst: seq<byte>, src: seq<byte>, b: SrcBox, o: (int, int, int), z: int)
    requires |dst| == VOXELS
    requires !(0 <= b.z + z < SIZE && 0 <= o.2 + z < SIZE)
    ensures BlitUpTo(dst, src, b, o, z, 0, 0) == BlitUpTo(dst, src, b, o, z + 1, 0, 0)
  {
  }

  /** After its last row, a layer is done. */
  lemma LayerDone(dst: seq<byte>, src: seq<byte>, b: SrcBox, o: (int, int, int), z: int, y: int)
    requires |dst| == VOXELS && y >= b.h
    ensures BlitUpTo(dst, src, b, o, z, y, 0) == BlitUpTo(dst, src, b, o, z + 1, 0, 0)
  {
  }

  /** A row whose source or destination lies outside the chunk writes nothing. */
  lemma SkippedRow(dst: seq<byte>, src: seq<byte>, b: SrcBox, o: (int, int, int), z: int, y: int)
    requires |dst| == VOXELS
    requires !(0 <= b.y + y < SIZE && 0 <= o.1 + y < SIZE)
    ensures BlitUpTo(dst, src, b, o, z, y, 0) == BlitUpTo(dst, src, b, o, z, y + 1, 0)
  {
  }

  /** After its last entry, a row is done. */
  lemma RowDone(dst: seq<byte>, src: seq<byte>, b: SrcBox, o: (int, int, int), z: int, y: int, x: int)
    requires |dst| == VOXELS && x == |SourceRow(src, b, b.y + y, b.z + z)|
    ensures BlitUpTo(dst, src, b, o, z, y, x) == BlitUpTo(dst, src, b, o, z, y + 1, 0)
  {
  }

  /** An entry whose destination column lies outside the chunk writes nothing. */
  lemma SkippedColumn(dst: seq<byte>, src: seq<byte>, b: SrcBox, o: (int, int, int), z: int, y: int, x: int)
    requires |dst| == VOXELS && !(0 <= o.0 + x < SIZE)
    ensures BlitUpTo(dst, src, b, o, z, y, x) == BlitUpTo(dst, src, b, o, z, y, x + 1)
  {
  }

  /** A step that writes sets its own destination voxel and no other. */
  lemma BlitStep(dst: seq<byte>, src: seq<byte>, b: SrcBox, o: (int, int, int), z: int, y: int, x: int)
    requires |dst| == VOXELS && Writes(src, b, o, z, y, x)
    ensures 0 <= Index(o.0 + x, o.1 + y, o.2 + z) < VOXELS
    ensures BlitUpTo(dst, src, b, o, z, y, x)[Index(o.0 + x, o.1 + y, o.2 + z) := SourceRow(src, b, b.y + y, b.z + z)[x]]
      == BlitUpTo(dst, src, b, o, z, y, x + 1)
  {
    var j := Index(o.0 + x, o.1 + y, o.2 + z);
    CoordsOfIndex(o.0 + x, o.1 + y, o.2 + z);
    var before := BlitUpTo(dst, src, b, o, z, y, x);
    var after := BlitUpTo(dst, src, b, o, z, y, x + 1);
    forall i | 0 <= i < VOXELS
      ensures before[j := SourceRow(src, b, b.y + y, b.z + z)[x]][i] == after[i]
    {
      BlitStepAt(dst, src, b, o, z, y, x, i);
    }
  }

  /** Voxel `i` in `BlitStep`. */
  lemma BlitStepAt(dst: seq<byte>, src: seq<byte>, b: SrcBox, o: (int, int, int), z: int, y: int, x: int, i: int)
    requires |dst| == VOXELS && Writes(src, b, o, z, y, x) && 0 <= i < VOXELS
    ensures 0 <= Index(o.0 + x, o.1 + y, o.2 + z) < VOXELS
    ensures (if i == Index(o.0 + x, o.1 + y, o.2 + z) then SourceRow(src, b, b.y + y, b.z + z)[x]
      else BlitUpTo(dst, src, b, o, z, y, x)[i]) == BlitUpTo(dst, src, b, o, z, y, x + 1)[i]
  {
    CoordsOfIndex(o.0 + x, o.1 + y, o.2 + z);
    if i == Index(o.0 + x, o.1 + y, o.2 + z) {
      BlitStepHere(dst, src, b, o, z, y, x);
    } else {
      BlitStepElsewhere(dst, src, b, o, z, y, x, i);
    }
  }

  /** The voxel of a step that writes receives its entry of the source row. */
  lemma BlitStepHere(dst: seq<byte>, src: seq<byte>, b: SrcBox, o: (int, int, int), z: int, y: int, x: int)
    requires |dst| == VOXELS && Writes(src, b, o, z, y, x)
    ensures 0 <= Index(o.0 + x, o.1 + y, o.2 + z) < VOXELS
    ensures BlitUpTo(dst, src, b, o, z, y, x + 1)[Index(o.0 + x, o.1 + y, o.2 + z)] == SourceRow(src, b, b.y + y, b.z + z)[x]
  {
    var j := Index(o.0 + x, o.1 + y, o.2 + z);
    CoordsOfIndex(o.0 + x, o.1 + y, o.2 + z);
    var p := Coords(j);
    assert p.2 - o.2 == z && p.1 - o.1 == y && p.0 - o.0 == x;
    assert BlitUpTo(dst, src, b, o, z, y, x + 1)[j] == StepValue(dst[j], src, b, o, z, y, x, z, y, x + 1);
  }

  /** A step changes no other voxel than its own. */
  lemma BlitStepElsewhere(dst: seq<byte>, src: seq<byte>, b: SrcBox, o: (int, int, int), z: int, y: int, x: int, i: int)
    requires |dst| == VOXELS && 0 <= i < VOXELS
    requires InBounds(o.0 + x, o.1 + y, o.2 + z) && i != Index(o.0 + x, o.1 + y, o.2 + z)
    ensures BlitUpTo(dst, src, b, o, z, y, x)[i] == BlitUpTo(dst, src, b, o, z, y, x + 1)[i]
  {
    IndexOfCoords(i);
    var p := Coords(i);
    IndexInjective(p.0, p.1, p.2, o.0 + x, o.1 + y, o.2 + z);
    assert !(p.2 - o.2 == z && p.1 - o.1 == y && p.0 - o.0 == x);
  }

  /** Voxel `(X, Y, Z)`, at offset `(x, y, z)` from the destination origin, after `blitFrom`: written by its step if that step writes, kept otherwise. */
  lemma BlittedAt(dst: seq<byte>, src: seq<byte>, b: SrcBox, o: (int, int, int), x: int, y: int, z: int,
                  X: int, Y: int, Z: int)
    requires |dst| == VOXELS && InBounds(X, Y, Z) && X == o.0 + x && Y == o.1 + y && Z == o.2 + z
    ensures At(Blitted(dst, src, b, o), X, Y, Z) ==
      if Writes(src, b, o, z, y, x) then SourceRow(src, b, b.y + y, b.z + z)[x] else At(dst, X, Y, Z)
  {
    var j := Index(X, Y, Z);
    CoordsOfIndex(X, Y, Z);
    var p := Coords(j);
    assert p.2 - o.2 == z && p.1 - o.1 == y && p.0 - o.0 == x;
    assert Blitted(dst, src, b, o)[j] == StepValue(dst[j], src, b, o, z, y, x, Max(b.d, 0), 0, 0);
  }

  /**
   * When the source box lies inside the chunk, each voxel of the
   * destination box that lies inside the chunk receives the source voxel at
   * the same offset.
   */
  lemma BlitCopiesBox(dst: seq<byte>, src: seq<byte>, b: SrcBox, o: (int, int, int), x: int, y: int, z: int)
    requires |dst| == VOXELS && |src| == VOXELS
    requires 0 <= b.x && 0 <= b.w && b.x + b.w <= SIZE
    requires 0 <= x < b.w && 0 <= y < b.h && 0 <= z < b.d
    requires InBounds(b.x + x, b.y + y, b.z + z) && InBounds(o.0 + x, o.1 + y, o.2 + z)
    ensures At(Blitted(dst, src, b, o), o.0 + x, o.1 + y, o.2 + z) == At(src, b.x + x, b.y + y, b.z + z)
  {
    var X, Y, Z := o.0 + x, o.1 + y, o.2 + z;
    var row := SourceRow(src, b, b.y + y, b.z + z);
    BlittedAt(dst, src, b, o, x, y, z, X, Y, Z);
    ExactSourceRow(src, b, b.y + y, b.z + z);
    IndexInRange(b.x + x, b.y + y, b.z + z);
    assert Writes(src, b, o, z, y, x);
    assert row[x] == src[Index(b.x, b.y + y, b.z + z) + x];
  }

  /** A source row that lies inside the chunk is the `w` voxels from `(x, sy, sz)`. */
  lemma ExactSourceRow(src: seq<byte>, b: SrcBox, sy: int, sz: int)
    requires |src| == VOXELS && 0 <= b.x && 0 <= b.w && b.x + b.w <= SIZE
    requires 0 <= sy < SIZE && 0 <= sz < SIZE
    ensures SourceRow(src, b, sy, sz) == src[Index(b.x, sy, sz)..Index(b.x, sy, sz) + b.w]
  {
  }

  /** A voxel outside the destination box keeps its value. */
  lemma BlitKeepsOutside(dst: seq<byte>, src: seq<byte>, b: SrcBox, o: (int, int, int), x: int, y: int, z: int)
    requires |dst| == VOXELS && |src| == VOXELS && InBounds(x, y, z)
    requires 0 <= b.x && 0 <= b.w && b.x + b.w <= SIZE
    requires !(o.0 <= x < o.0 + b.w && o.1 <= y < o.1 + b.h && o.2 <= z < o.2 + b.d)
    ensures At(Blitted(dst, src, b, o), x, y, z) == At(dst, x, y, z)
  {
    BlittedAt(dst, src, b, o, x - o.0, y - o.1, z - o.2, x, y, z);
    var sy, sz := b.y + (y - o.1), b.z + (z - o.2);
    if 0 <= sy < SIZE && 0 <= sz < SIZE {
      ExactSourceRow(src, b, sy, sz);
    }
  }

  /**
   * The source `x` is not clipped: with `srcBox.x == -1` each source row
   * `(sy, sz)` with `sy >= 1` starts one index early, so the first column of
   * the destination receives `(29, sy - 1, sz)`, the last voxel of the row
   * before, where a clipped copy would leave it alone.
   */
  lemma BlitReadsPreviousRow(dst: seq<byte>, src: seq<byte>, b: SrcBox, o: (int, int, int), y: int, z: int)
    requires |dst| == VOXELS && |src| == VOXELS
    requires b.x == -1 && 1 <= b.w <= SIZE + 1
    requires 0 <= y < b.h && 0 <= z < b.d && 1 <= b.y + y < SIZE && 0 <= b.z + z < SIZE
    requires InBounds(o.0, o.1 + y, o.2 + z)
    ensures At(Blitted(dst, src, b, o), o.0, o.1 + y, o.2 + z) == At(src, 29, b.y + y - 1, b.z + z)
  {
    var sy, sz := b.y + y, b.z + z;
    BlittedAt(dst, src, b, o, 0, y, z, o.0, o.1 + y, o.2 + z);
    assert SourceRow(src, b, sy, sz) == src[Index(29, sy - 1, sz)..Index(29, sy - 1, sz) + b.w];
  }

  // ---------------------------------------------------------------- the class

  /** What the constructor is given as `voxels`. */
  datatype VoxelsArg =
    | TypedArray(a: array<byte>)
    | Missing
    | NumberArray(values: seq<int>)
    | OtherValue

  /** The errors the chunk throws. */
  datatype ChunkError = WrongVoxelCount | NotVoxels | InvalidSide | WrongFaceData

  /** The constructor accepts a typed array or a number array of 27000 elements, or no array. */
  predicate Accepted(arg: VoxelsArg)
  {
    match arg
    case TypedArray(a) => a.Length == VOXELS
    case Missing => true
    case NumberArray(vs) => |vs| == VOXELS
    case OtherValue => false
  }

  /** The error of a rejected `voxels` argument. */
  function Rejection(arg: VoxelsArg): ChunkError
  {
    if arg.OtherValue? then NotVoxels else WrongVoxelCount
  }

  /** `v | 0` on each coordinate of an origin. */
  function Int32Triple(p: (int, int, int)): (int, int, int)
  {
    (ToInt32(p.0), ToInt32(p.1), ToInt32(p.2))
  }

  class Chunk {
    var voxels: array<byte>
    var origin: (int, int, int)
    var regionCoords: (int, int, int)

    /** The array holds one byte per voxel. */
    predicate Valid()
      reads this
    {
      voxels.Length == VOXELS
    }

    /** The field assignments of the constructor, once `voxels` has been checked. */
    constructor Init(voxels: array<byte>, origin: (int, int, int), regionCoords: (int, int, int))
      requires voxels.Length == VOXELS
      ensures Valid() && this.voxels == voxels
      ensures this.origin == Int32Triple(origin) && this.regionCoords == Int32Triple(regionCoords)
    {
      this.voxels := voxels;
      this.origin := Int32Triple(origin);
      this.regionCoords := Int32Triple(regionCoords);
    }

    /**
     * `new Chunk({voxels, origin, regionCoords})`: a typed array of the
     * right length is kept as it is, a number array is copied with each
     * element truncated to a byte, no array gives all air; any other value,
     * or a wrong length, throws.
     */
    static method New(arg: VoxelsArg, origin: (int, int, int), regionCoords: (int, int, int))
      returns (r: Result<Chunk, ChunkError>)
      ensures r.Ok? <==> Accepted(arg)
      ensures r.Err? ==> r.error == Rejection(arg)
      ensures r.Ok? ==> fresh(r.value) && r.value.Valid()
      ensures r.Ok? ==> r.value.origin == Int32Triple(origin) && r.value.regionCoords == Int32Triple(regionCoords)
      ensures r.Ok? && arg.TypedArray? ==> r.value.voxels == arg.a
      ensures r.Ok? && arg.Missing? ==> fresh(r.value.voxels) && r.value.voxels[..] == Filled(0)
      ensures r.Ok? && arg.NumberArray? ==>
        fresh(r.value.voxels) && r.value.voxels[..] == seq(VOXELS, i requires 0 <= i < VOXELS => ToUint8(arg.values[i]))
    {
      if arg.OtherValue? {
        return Err(NotVoxels);
      }
      var a: array<byte>;
      if arg.TypedArray? {
        a := arg.a;
      } else if arg.Missing? {
        a := new byte[VOXELS](_ => 0);
      } else {
        var vs := arg.values;
        a := new byte[|vs|](i requires 0 <= i < |vs| => ToUint8(vs[i]));
      }
      if a.Length != VOXELS {
        return Err(WrongVoxelCount);
      }
      var c := new Chunk.Init(a, origin, regionCoords);
      r := Ok(c);
    }

    /** `get(x, y, z)`. */
    method Get(x: int, y: int, z: int) returns (v: byte)
      requires Valid()
      ensures v == At(voxels[..], x, y, z)
    {
      if !InBounds(x, y, z) {
        return 0;
      }
      CoordsOfIndex(x, y, z);
      v := voxels[Index(x, y, z)];
    }

    /** `set(x, y, z, v)`. */
    method Set(x: int, y: int, z: int, v: int)
      requires Valid()
      modifies voxels
      ensures voxels[..] == Stored(old(voxels[..]), x, y, z, v)
    {
      if !InBounds(x, y, z) {
        return;
      }
      CoordsOfIndex(x, y, z);
      voxels[Index(x, y, z)] := ToUint8(v);
    }

    /** `fill(v)`: the typed array's own `fill`. */
    method Fill(v: int)
      requires Valid()
      modifies voxels
      ensures voxels[..] == Filled(v)
    {
      var b := ToUint8(v);
      forall i | 0 <= i < voxels.Length {
        voxels[i] := b;
      }
    }

    /** `getFace(side)`: the voxels of the face, in the order of its double loop. */
    method GetFace(name: string) returns (r: Result<seq<byte>, ChunkError>)
      requires Valid()
      ensures ParseSide(name).None? ==> r == Err(InvalidSide)
      ensures ParseSide(name).Some? ==> r == Ok(Face(voxels[..], ParseSide(name).value))
    {
      var side := ParseSide(name);
      if side.None? {
        return Err(InvalidSide);
      }
      ghost var face := Face(voxels[..], side.value);
      var out := new byte[SIZE * SIZE];
      var k := 0;
      var a := 0;
      while a < SIZE
        invariant 0 <= a <= SIZE && k == 30 * a
        invariant forall j :: 0 <= j < k ==> out[j] == face[j]
      {
        var b := 0;
        while b < SIZE
          invariant 0 <= b <= SIZE && k == b + 30 * a
          invariant forall j :: 0 <= j < k ==> out[j] == face[j]
        {
          var p := FaceVoxel(side.value, a, b);
          ModUnique(k, 30, a, b);
          out[k] := Get(p.0, p.1, p.2);
          b, k := b + 1, k + 1;
        }
        a := a + 1;
      }
      assert out[..] == face;
      r := Ok(out[..]);
    }

    /**
     * `setFace(side, data)`: `data` must be a typed array of 900 bytes
     * (`None` stands for any other value); then the side is checked; then
     * each entry is written to its voxel of the face.
     */
    method SetFace(name: string, data: Option<seq<byte>>) returns (r: Result<(), ChunkError>)
      requires Valid()
      modifies voxels
      ensures !(data.Some? && |data.value| == SIZE * SIZE) ==> r == Err(WrongFaceData)
      ensures data.Some? && |data.value| == SIZE * SIZE && ParseSide(name).None? ==> r == Err(InvalidSide)
      ensures r.Err? ==> voxels[..] == old(voxels[..])
      ensures r.Ok? ==>
        && data.Some? && |data.value| == SIZE * SIZE && ParseSide(name).Some?
        && voxels[..] == WithFace(old(voxels[..]), ParseSide(name).value, data.value)
    {
      if !(data.Some? && |data.value| == SIZE * SIZE) {
        return Err(WrongFaceData);
      }
      var side := ParseSide(name);
      if side.None? {
        return Err(InvalidSide);
      }
      var d := data.value;
      ghost var s := voxels[..];
      assert voxels[..] == PartialFace(s, side.value, d, 0);
      var k := 0;
      var a := 0;
      while a < SIZE
        invariant 0 <= a <= SIZE && k == 30 * a
        invariant voxels[..] == PartialFace(s, side.value, d, k)
      {
        var b := 0;
        while b < SIZE
          invariant 0 <= b <= SIZE && k == b + 30 * a
          invariant voxels[..] == PartialFace(s, side.value, d, k)
        {
          var p := FaceVoxel(side.value, a, b);
          FaceStep(s, side.value, d, a, b, k);
          Set(p.0, p.1, p.2, d[k]);
          b, k := b + 1, k + 1;
        }
        a := a + 1;
      }
      r := Ok(());
    }

    /** `voxels.fill(v, start, end)`. */
    method FillBetween(v: byte, start: int, end: int)
      requires Valid()
      modifies voxels
      ensures voxels[..] == FillRange(old(voxels[..]), start, end, v)
    {
      var lo, hi := Bytes.RelativeIndex(start, voxels.Length), Bytes.RelativeIndex(end, voxels.Length);
      forall i | lo <= i < hi {
        voxels[i] := v;
      }
    }

    /**
     * `fillBox(x0, y0, z0, x1, y1, z1, value)`: the corners are clamped to
     * the chunk, then each row `(y, z)` of the box is filled with
     * `fill(v, row + x0, row + x1)`.
     */
    method FillBox(x0: int, y0: int, z0: int, x1: int, y1: int, z1: int, value: int)
      requires Valid()
      modifies voxels
      ensures voxels[..] == FillBoxResult(old(voxels[..]), Box(x0, y0, z0, x1, y1, z1), value)
    {
      var v := ToUint8(value);
      var c := Clamp(Box(x0, y0, z0, x1, y1, z1));
      ghost var s := voxels[..];
      ghost var rows: seq<int> := [];
      var z := c.z0;
      while z < c.z1
        invariant c.z0 <= z && (z <= c.z1 || z == c.z0)
        invariant rows == BoxRows(c.y0, c.y1, c.z0, z)
        invariant voxels[..] == FillRows(s, rows, c.x0, c.x1, v)
      {
        rows := FillLayer(s, rows, z, c.y0, c.y1, c.x0, c.x1, v);
        z := z + 1;
      }
    }

    /** The inner loop of `fillBox`: the rows of layer `z`, each filled in turn. */
    method FillLayer(ghost s: seq<byte>, ghost done: seq<int>, z: int, y0: int, y1: int, x0: int, x1: int, v: byte)
      returns (ghost rows: seq<int>)
      requires Valid() && voxels[..] == FillRows(s, done, x0, x1, v)
      modifies voxels
      ensures rows == done + LayerRows(z, y0, y1)
      ensures voxels[..] == FillRows(s, rows, x0, x1, v)
    {
      rows := done;
      var zOff := z * 900;
      var y := y0;
      while y < y1
        invariant y0 <= y && (y <= y1 || y == y0)
        invariant rows == done + LayerRows(z, y0, y)
        invariant voxels[..] == FillRows(s, rows, x0, x1, v)
      {
        var row := zOff + y * 30;
        FillBetween(v, row + x0, row + x1);
        FillRowsSnoc(s, rows, row, x0, x1, v);
        NextRow(done, z, y0, y);
        rows := rows + [row];
        y := y + 1;
      }
      assert LayerRows(z, y0, y) == LayerRows(z, y0, y1);
    }

    /** `fillBox` with `x1` also kept from going below 0, which makes it fill exactly the box. */
    method FillBoxClamped(x0: int, y0: int, z0: int, x1: int, y1: int, z1: int, value: int)
      requires Valid()
      modifies voxels
      ensures voxels[..] == BoxFilled(old(voxels[..]), Clamp(Box(x0, y0, z0, x1, y1, z1)), ToUint8(value))
    {
      ghost var s := voxels[..];
      FillBox(x0, y0, z0, Max(0, x1), y1, z1, value);
      FillBoxExact(s, Box(x0, y0, z0, Max(0, x1), y1, z1), value);
      assert BoxFilled(s, Clamp(Box(x0, y0, z0, Max(0, x1), y1, z1)), ToUint8(value))
        == BoxFilled(s, Clamp(Box(x0, y0, z0, x1, y1, z1)), ToUint8(value));
    }

    /**
     * `blitFrom(srcChunk, srcBox, dstOrigin)`, with the source chunk's
     * voxels given as a value taken before the blit (a source chunk other
     * than this one; a self-blit reads its own writes): for each source row of the box whose source
     * and destination rows lie in their chunks, the entries of the row are
     * copied to the destination columns that lie in the chunk.
     */
    method BlitFrom(src: seq<byte>, b: SrcBox, dstOrigin: (int, int, int))
      requires Valid() && |src| == VOXELS
      modifies voxels
      ensures voxels[..] == Blitted(old(voxels[..]), src, b, Int32Triple(dstOrigin))
    {
      var o := Int32Triple(dstOrigin);
      ghost var s := voxels[..];
      var z := 0;
      while z < b.d
        invariant 0 <= z && (z <= b.d || z == 0)
        invariant voxels[..] == BlitUpTo(s, src, b, o, z, 0, 0)
      {
        BlitLayer(s, src, b, o, z);
        z := z + 1;
      }
    }

    /** One pass of the outer loop of `blitFrom`. */
    method BlitLayer(ghost s: seq<byte>, src: seq<byte>, b: SrcBox, o: (int, int, int), z: int)
      requires Valid() && |s| == VOXELS && |src| == VOXELS && 0 <= z < b.d
      requires voxels[..] == BlitUpTo(s, src, b, o, z, 0, 0)
      modifies voxels
      ensures voxels[..] == BlitUpTo(s, src, b, o, z + 1, 0, 0)
    {
      var sz, dz := b.z + z, o.2 + z;
      if sz < 0 || dz < 0 || sz >= SIZE || dz >= SIZE {
        SkippedLayer(s, src, b, o, z);
        return;
      }
      var y := 0;
      while y < b.h
        invariant 0 <= y && (y <= b.h || y == 0)
        invariant voxels[..] == BlitUpTo(s, src, b, o, z, y, 0)
      {
        BlitRow(s, src, b, o, z, y);
        y := y + 1;
      }
      LayerDone(s, src, b, o, z, y);
    }

    /** One pass of the middle loop of `blitFrom`. */
    method BlitRow(ghost s: seq<byte>, src: seq<byte>, b: SrcBox, o: (int, int, int), z: int, y: int)
      requires Valid() && |s| == VOXELS && |src| == VOXELS
      requires 0 <= z < b.d && 0 <= b.z + z < SIZE && 0 <= o.2 + z < SIZE && 0 <= y < b.h
      requires voxels[..] == BlitUpTo(s, src, b, o, z, y, 0)
      modifies voxels
      ensures voxels[..] == BlitUpTo(s, src, b, o, z, y + 1, 0)
    {
      var sy, dy := b.y + y, o.1 + y;
      if sy < 0 || dy < 0 || sy >= SIZE || dy >= SIZE {
        SkippedRow(s, src, b, o, z, y);
        return;
      }
      var srow := SourceRow(src, b, sy, b.z + z);
      var dbase := Index(o.0, dy, o.2 + z);
      var x := 0;
      while x < |srow|
        invariant 0 <= x <= |srow|
        invariant voxels[..] == BlitUpTo(s, src, b, o, z, y, x)
      {
        var dx := o.0 + x;
        if 0 <= dx < SIZE {
          BlitStep(s, src, b, o, z, y, x);
          voxels[dbase + x] := srow[x];
        } else {
          SkippedColumn(s, src, b, o, z, y, x);
        }
        x := x + 1;
      }
      RowDone(s, src, b, o, z, y, x);
    }

    /** `histogram()`: one count per byte value, over the whole array. */
    method Histogram() returns (hist: seq<nat>)
      requires Valid()
      ensures hist == Hist(voxels[..])
    {
      var h := new nat[256](_ => 0);
      assert h[..] == Hist(voxels[..0]);
      var i := 0;
      while i < voxels.Length
        invariant 0 <= i <= voxels.Length && h[..] == Hist(voxels[..i])
      {
        HistStep(voxels[..i], voxels[i]);
        assert voxels[..i + 1] == voxels[..i] + [voxels[i]];
        h[voxels[i]] := h[voxels[i]] + 1;
        i := i + 1;
      }
      assert voxels[..i] == voxels[..];
      hist := h[..];
    }

    /** `mapInPlace(fn)`: the loops over `z`, `y`, `x` with a running index. */
    method MapInPlace(fn: (byte, int, int, int, int) -> int)
      requires Valid()
      modifies voxels
      ensures voxels[..] == Mapped(old(voxels[..]), fn)
    {
      ghost var s := voxels[..];
      var idx := 0;
      var z := 0;
      while z < SIZE
        invariant 0 <= z <= SIZE && idx == 900 * z
        invariant MappedBelow(voxels[..], s, fn, idx)
      {
        var y := 0;
        while y < SIZE
          invariant 0 <= y <= SIZE && idx == 30 * y + 900 * z
          invariant MappedBelow(voxels[..], s, fn, idx)
        {
          var x := 0;
          while x < SIZE
            invariant 0 <= x <= SIZE && idx == x + 30 * y + 900 * z
            invariant MappedBelow(voxels[..], s, fn, idx)
          {
            CoordsOfIndex(x, y, z);
            voxels[idx] := ToUint8(fn(voxels[idx], x, y, z, idx));
            x, idx := x + 1, idx + 1;
          }
          y := y + 1;
        }
        z := z + 1;
      }
      assert voxels[..] == Mapped(s, fn);
    }

    /** `toCoreData()`: the voxels read with `get` in index order, into a new array. */
    method ToCoreData() returns (core: seq<byte>)
      requires Valid()
      ensures core == voxels[..]
    {
      var out := new byte[VOXELS];
      var k := 0;
      var z := 0;
      while z < SIZE
        invariant 0 <= z <= SIZE && k == 900 * z
        invariant forall j :: 0 <= j < k ==> out[j] == voxels[j]
      {
        var y := 0;
        while y < SIZE
          invariant 0 <= y <= SIZE && k == 30 * y + 900 * z
          invariant forall j :: 0 <= j < k ==> out[j] == voxels[j]
        {
          var x := 0;
          while x < SIZE
            invariant 0 <= x <= SIZE && k == x + 30 * y + 900 * z
            invariant forall j :: 0 <= j < k ==> out[j] == voxels[j]
          {
            IndexInRange(x, y, z);
            out[k] := Get(x, y, z);
            x, k := x + 1, k + 1;
          }
          y := y + 1;
        }
        z := z + 1;
      }
      core := out[..];
    }

    /** `Chunk.fromCoreData(uint8, origin)`: core element `(cx, cy, cz)` set at voxel `(cx + 1, cy + 1, cz + 1)`. */
    static method FromCoreData(u: seq<byte>, origin: (int, int, int)) returns (c: Chunk)
      ensures fresh(c) && fresh(c.voxels) && c.Valid()
      ensures c.voxels[..] == FromCore(u)
      ensures c.origin == Int32Triple(origin) && c.regionCoords == (0, 0, 0)
    {
      var r := New(Missing, origin, (0, 0, 0));
      c := r.value;
      assert c.voxels[..] == ShiftedUpTo(u, 0);
      var k := 0;
      var cz := 0;
      while cz < SIZE
        modifies c.voxels
        invariant 0 <= cz <= SIZE && k == 900 * cz
        invariant c.Valid() && c.voxels[..] == ShiftedUpTo(u, k)
      {
        var cy := 0;
        while cy < SIZE
          modifies c.voxels
          invariant 0 <= cy <= SIZE && k == 30 * cy + 900 * cz
          invariant c.Valid() && c.voxels[..] == ShiftedUpTo(u, k)
        {
          var cx := 0;
          while cx < SIZE
            modifies c.voxels
            invariant 0 <= cx <= SIZE && k == cx + 30 * cy + 900 * cz
            invariant c.Valid() && c.voxels[..] == ShiftedUpTo(u, k)
          {
            ShiftStep(u, cx, cy, cz, k);
            c.Set(cx + 1, cy + 1, cz + 1, CoreByte(u, k));
            cx, k := cx + 1, k + 1;
          }
          cy := cy + 1;
        }
        cz := cz + 1;
      }
    }
  }

  /** The invariant of `mapInPlace`: the voxels below `idx` mapped, the others as they were. */
  ghost predicate MappedBelow(cur: seq<byte>, s: seq<byte>, fn: (byte, int, int, int, int) -> int, idx: int)
  {
    |cur| == |s| == VOXELS && 0 <= idx <= VOXELS &&
    (forall j :: 0 <= j < idx ==> cur[j] == ToUint8(fn(s[j], Coords(j).0, Coords(j).1, Coords(j).2, j))) &&
    (forall j :: idx <= j < VOXELS ==> cur[j] == s[j])
  }
}
