/**
 * World-coordinate lookup over octree mini-chunks (app/data/VoxelAccessor.js).
 *
 * Metric coordinates are split into region, mini-chunk and voxel indices
 * with floor division and a floor modulo; the voxel is then found by
 * descending the chunk's octree from its root.
 *
 * During the descent the node side `nodeSize` halves at every level, so
 * it is `2^e` for an integer exponent `e` that becomes negative below the
 * voxel level. Local coordinates start as integers in `[0, 16)` and stay
 * integers: for `halfSize = 2^h` with `h >= 0` the code's `x >= halfSize`
 * and `x % halfSize` are the integer comparison and remainder, and for
 * `h < 0` (a half size strictly between 0 and 1) an integer `x` is at
 * least `halfSize` exactly when `x >= 1`, and `x % halfSize` is 0. The
 * model tracks the exponent instead of the fractional size.
 */
module VoxelAccessor {
  import opened Wrappers
  import opened JsNumbers
  import opened Octree
  import OctreeConfig

  /** The object `{ id, density, level, found }` returned by a lookup. */
  datatype VoxelInfo = VoxelInfo(id: int, density: int, level: int, found: bool)

  /** The object `{ rx, ry, rz, chunkIndex, vx, vy, vz }`. */
  datatype ChunkCoords = ChunkCoords(rx: int, ry: int, rz: int, chunkIndex: int, vx: int, vy: int, vz: int)

  const MAX_DEPTH: int := 9
  /** `nodeSize` starts at the mini-chunk side, 16 = 2^4. */
  const ROOT_SIZE_EXPONENT: int := 4

  /** `#getLocalModulo`: the truncating remainder, moved into `[0, divisor)` when negative. */
  function LocalModulo(dividend: int, divisor: int): (r: int)
    requires divisor > 0
    ensures 0 <= r < divisor
    ensures r == dividend % divisor
  {
    JsRemToFloorMod(dividend, divisor);
    var result := JsRem(dividend, divisor);
    if result < 0 then result + divisor else result
  }

  /** `Math.floor(a / b)` on integers, for the positive divisors used here. */
  function FloorDiv(a: int, b: int): (q: int)
    requires b > 0
    ensures q == a / b
  {
    FloorDivIsEuclidean(a, b);
    Floor(a as real / b as real)
  }

  lemma FloorDivIsEuclidean(a: int, b: int)
    requires b > 0
    ensures Floor(a as real / b as real) == a / b
  {
    var f := Floor(a as real / b as real);
    var q := a / b;
    assert a == q * b + a % b;
    assert (q as real) * (b as real) <= a as real < (q as real + 1.0) * (b as real);
    RealDivBounds(a as real, b as real, q as real);
    RealDivBounds(a as real, b as real, q as real + 1.0);
  }

  /** The mini-chunk's index inside its region: x fastest, then z, then y (64 per horizontal layer). */
  function ChunkIndexOf(localCX: int, localCY: int, localCZ: int): int
  {
    localCX + localCZ * OctreeConfig.REGION_CHUNKS_PER_SIDE_XZ +
      localCY * (OctreeConfig.REGION_CHUNKS_PER_SIDE_XZ * OctreeConfig.REGION_CHUNKS_PER_SIDE_XZ)
  }

  /** The chunk index is a bijection between `[0,8) x [0,2) x [0,8)` and `[0, 128)`. */
  lemma ChunkIndexBijective(lcx: int, lcy: int, lcz: int)
    requires 0 <= lcx < 8 && 0 <= lcy < 2 && 0 <= lcz < 8
    ensures 0 <= ChunkIndexOf(lcx, lcy, lcz) < 128
    ensures ChunkIndexOf(lcx, lcy, lcz) % 8 == lcx
    ensures ChunkIndexOf(lcx, lcy, lcz) / 8 % 8 == lcz
    ensures ChunkIndexOf(lcx, lcy, lcz) / 64 == lcy
  {
    var i := ChunkIndexOf(lcx, lcy, lcz);
    assert i == lcx + 8 * (lcz + 8 * lcy);
    ModUnique(i, 8, lcz + 8 * lcy, lcx);
    assert i / 8 == lcz + 8 * lcy;
    ModUnique(i / 8, 8, lcy, lcz);
    ModUnique(i, 64, lcy, lcx + 8 * lcz);
  }

  /** `#getChunkAndVoxelCoords(x, y, z)`. */
  function ChunkAndVoxelCoords(x: real, y: real, z: real): (c: ChunkCoords)
    ensures 0 <= c.chunkIndex < 128
    ensures 0 <= c.vx < 16 && 0 <= c.vy < 16 && 0 <= c.vz < 16
    // the region and the index inside it recompose the absolute mini-chunk coordinates
    ensures c.rx * 8 + c.chunkIndex % 8 == Floor(x / 24.0)
    ensures c.rz * 8 + c.chunkIndex / 8 % 8 == Floor(z / 24.0)
    ensures c.ry * 2 + c.chunkIndex / 64 == Floor(y / 24.0)
    // the mini-chunk and the local voxel recompose the absolute voxel coordinates
    ensures Floor(x / 24.0) * 16 + c.vx == Floor(x / 1.5)
    ensures Floor(y / 24.0) * 16 + c.vy == Floor(y / 1.5)
    ensures Floor(z / 24.0) * 16 + c.vz == Floor(z / 1.5)
  {
    var absCX := Floor(x / OctreeConfig.MiniChunkSizeMeters());
    var absCY := Floor(y / OctreeConfig.MiniChunkSizeMeters());
    var absCZ := Floor(z / OctreeConfig.MiniChunkSizeMeters());
    var rx := FloorDiv(absCX, OctreeConfig.REGION_CHUNKS_PER_SIDE_XZ);
    var ry := FloorDiv(absCY, OctreeConfig.REGION_CHUNKS_PER_SIDE_Y);
    var rz := FloorDiv(absCZ, OctreeConfig.REGION_CHUNKS_PER_SIDE_XZ);
    var localCX := LocalModulo(absCX, OctreeConfig.REGION_CHUNKS_PER_SIDE_XZ);
    var localCY := LocalModulo(absCY, OctreeConfig.REGION_CHUNKS_PER_SIDE_Y);
    var localCZ := LocalModulo(absCZ, OctreeConfig.REGION_CHUNKS_PER_SIDE_XZ);
    var chunkIndex := ChunkIndexOf(localCX, localCY, localCZ);
    var absVX := Floor(x / OctreeConfig.VOXEL_SIZE_METERS);
    var absVY := Floor(y / OctreeConfig.VOXEL_SIZE_METERS);
    var absVZ := Floor(z / OctreeConfig.VOXEL_SIZE_METERS);
    ChunkIndexBijective(localCX, localCY, localCZ);
    VoxelInChunk(x);
    VoxelInChunk(y);
    VoxelInChunk(z);
    ChunkCoords(rx, ry, rz, chunkIndex,
      LocalModulo(absVX, OctreeConfig.MINI_CHUNK_SIDE_VOXELS),
      LocalModulo(absVY, OctreeConfig.MINI_CHUNK_SIDE_VOXELS),
      LocalModulo(absVZ, OctreeConfig.MINI_CHUNK_SIDE_VOXELS))
  }

  /** The voxel containing a point lies in the mini-chunk containing it: `floor(floor(x/1.5)/16) == floor(x/24)`. */
  lemma VoxelInChunk(x: real)
    ensures Floor(x / 1.5) / 16 == Floor(x / 24.0)
    ensures Floor(x / 1.5) % 16 == Floor(x / 1.5) - 16 * Floor(x / 24.0)
  {
    var a := Floor(x / 1.5);
    var c := Floor(x / 24.0);
    assert x / 24.0 == (x / 1.5) / 16.0;
    assert 16 * c <= a < 16 * c + 16;
    ModUnique(a, 16, c, a - 16 * c);
  }

  /** A point just below zero on x falls in the last voxel of mini-chunk -1, in region -1. */
  lemma NegativeCoordinateExample()
    ensures ChunkAndVoxelCoords(-0.1, 0.0, 0.0) == ChunkCoords(-1, 0, 0, 7, 15, 0, 0)
  {
    assert Floor(-0.1 / 24.0) == -1;
    assert Floor(-0.1 / 1.5) == -1;
    assert Floor(0.0 / 24.0) == 0;
    assert Floor(0.0 / 1.5) == 0;
  }

  // ---------------------------------------------------------------- traversal

  /** `localX >= halfSize` for an integer `x` and `halfSize = 2^h`. */
  predicate AtLeastHalf(x: int, h: int)
  {
    if h >= 0 then x >= OctreeConfig.Pow2(h) else x >= 1
  }

  /** `localX % halfSize` for an integer `x >= 0` and `halfSize = 2^h`. */
  function RemainderByHalf(x: int, h: int): (r: int)
    requires x >= 0
    ensures r >= 0
    ensures h >= 0 && x < 2 * OctreeConfig.Pow2(h) ==> r == (if AtLeastHalf(x, h) then x - OctreeConfig.Pow2(h) else x)
  {
    if h >= 0 then
      var p := OctreeConfig.Pow2(h);
      HalfRemainder(x, p);
      x % p
    else 0
  }

  /** Below twice the half size, the remainder only removes the upper half. */
  lemma HalfRemainder(x: int, p: int)
    requires x >= 0 && p > 0
    ensures x < 2 * p ==> x % p == (if x >= p then x - p else x)
  {
    if x < 2 * p {
      if x >= p {
        ModUnique(x, p, 1, x - p);
      } else {
        ModUnique(x, p, 0, x);
      }
    }
  }

  /** The octant `childIndex` of a point: 4 for the upper x half, 2 for y, 1 for z. */
  function ChildIndex(x: int, y: int, z: int, h: int): (i: int)
    ensures 0 <= i < 8
  {
    (if AtLeastHalf(x, h) then 4 else 0) + (if AtLeastHalf(y, h) then 2 else 0) + (if AtLeastHalf(z, h) then 1 else 0)
  }

  /** The result object for the node where the descent stops. */
  function InfoOf(n: Node, level: int): (info: VoxelInfo)
    ensures info.found && info.id == n.materialID && info.level == level
    ensures info.density == 1 <==> n.materialID != OctreeConfig.VOXEL_ID_AIR
    ensures info.density == 0 <==> n.materialID == OctreeConfig.VOXEL_ID_AIR
  {
    VoxelInfo(n.materialID, if n.materialID != OctreeConfig.VOXEL_ID_AIR then 1 else 0, level, true)
  }

  /**
   * The lookup `#traverseOctree` performs, from `n` at `level` with side
   * `2^e` and local coordinates `(x, y, z)`: descend while the node is not a
   * leaf, has a children array and lies above the maximum depth; a missing
   * child yields air at the current level.
   */
  function Descend(n: Node, x: int, y: int, z: int, e: int, level: int): (info: VoxelInfo)
    requires x >= 0 && y >= 0 && z >= 0
    ensures info.found
    ensures level <= MAX_DEPTH ==> level <= info.level <= MAX_DEPTH
    ensures info.density == (if info.id != OctreeConfig.VOXEL_ID_AIR then 1 else 0)
    decreases n
  {
    if !IsLeafNode(n) && n.children.Slots? && level < MAX_DEPTH then
      var h := e - 1;
      var i := ChildIndex(x, y, z, h);
      var slots := n.children.slots;
      if i >= |slots| || slots[i].NullSlot? then VoxelInfo(OctreeConfig.VOXEL_ID_AIR, 0, level, true)
      else
        assert slots[i] in slots;
        Descend(slots[i].node, RemainderByHalf(x, h), RemainderByHalf(y, h), RemainderByHalf(z, h), h, level + 1)
    else
      InfoOf(n, level)
  }

  /** `#traverseOctree(node, vx, vy, vz)`. */
  method TraverseOctree(node: Node, vx: int, vy: int, vz: int) returns (info: VoxelInfo)
    requires vx >= 0 && vy >= 0 && vz >= 0
    ensures info == Descend(node, vx, vy, vz, ROOT_SIZE_EXPONENT, node.level)
  {
    var current := node;
    var currentLevel := current.level;
    var sizeExp := ROOT_SIZE_EXPONENT;
    var localX, localY, localZ := vx, vy, vz;
    while !IsLeafNode(current) && current.children.Slots? && currentLevel < MAX_DEPTH
      invariant localX >= 0 && localY >= 0 && localZ >= 0
      invariant Descend(current, localX, localY, localZ, sizeExp, currentLevel)
             == Descend(node, vx, vy, vz, ROOT_SIZE_EXPONENT, node.level)
      decreases MAX_DEPTH - currentLevel
    {
      var halfExp := sizeExp - 1;
      var childIndex := ChildIndex(localX, localY, localZ, halfExp);
      var slots := current.children.slots;
      if childIndex >= |slots| || slots[childIndex].NullSlot? {
        return VoxelInfo(OctreeConfig.VOXEL_ID_AIR, 0, currentLevel, true);
      }
      current := slots[childIndex].node;
      localX := RemainderByHalf(localX, halfExp);
      localY := RemainderByHalf(localY, halfExp);
      localZ := RemainderByHalf(localZ, halfExp);
      currentLevel := currentLevel + 1;
      sizeExp := halfExp;
    }
    info := InfoOf(current, currentLevel);
  }

  /** `getVoxelInfo(x, y, z)`, with the world's mini-chunk lookup `chunkRoot(rx, ry, rz, chunkIndex)` as a parameter. */
  method GetVoxelInfo(x: real, y: real, z: real, chunkRoot: (int, int, int, int) -> Option<Node>)
    returns (info: VoxelInfo)
    ensures var c := ChunkAndVoxelCoords(x, y, z);
      match chunkRoot(c.rx, c.ry, c.rz, c.chunkIndex)
      case None => info == VoxelInfo(OctreeConfig.VOXEL_ID_AIR, 0, 0, false)
      case Some(root) => info == Descend(root, c.vx, c.vy, c.vz, ROOT_SIZE_EXPONENT, root.level)
  {
    var coords := ChunkAndVoxelCoords(x, y, z);
    var root := chunkRoot(coords.rx, coords.ry, coords.rz, coords.chunkIndex);
    if root.None? {
      return VoxelInfo(OctreeConfig.VOXEL_ID_AIR, 0, 0, false);
    }
    info := TraverseOctree(root.value, coords.vx, coords.vy, coords.vz);
  }
}
