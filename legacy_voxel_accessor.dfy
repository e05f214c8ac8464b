/**
 * The older world-coordinate lookup (src/data/VoxelAccessor.js).
 *
 * It differs from the octree accessor in three ways: local mini-chunk and
 * voxel coordinates use JavaScript's truncating `%`, so they are negative
 * for negative world coordinates; the mini-chunk index is
 * `x + 8 y + 16 z` instead of `x + 8 z + 64 y`; and the descent has no
 * guard against a missing child, so reaching one throws. The root's side
 * is `16 >> level`, i.e. `2^(4 - level)`.
 *
 * The leaf test is the one assumed for the older node class (state EMPTY
 * or SOLID, `LegacyOctreeSerializer.LegacyIsLeaf`).
 */
module LegacyVoxelAccessor {
  import opened Wrappers
  import opened JsNumbers
  import opened Octree
  import OctreeConfig
  import OctreeSerializer
  import opened VoxelAccessor
  import LegacyOctreeSerializer

  /** The `TypeError` of calling `isLeaf()` on the `null` or `undefined` child the descent stepped into. */
  datatype TraversalError = MissingChild

  /** The mini-chunk index of the older accessor: x fastest, then y (2 values), then z. */
  function LegacyChunkIndexOf(localCX: int, localCY: int, localCZ: int): int
  {
    localCX + localCY * OctreeConfig.REGION_CHUNKS_PER_SIDE_XZ +
      localCZ * (OctreeConfig.REGION_CHUNKS_PER_SIDE_XZ * OctreeConfig.REGION_CHUNKS_PER_SIDE_Y)
  }

  /** On in-range local coordinates the older index is a bijection onto `[0, 128)`. */
  lemma LegacyChunkIndexBijective(lcx: int, lcy: int, lcz: int)
    requires 0 <= lcx < 8 && 0 <= lcy < 2 && 0 <= lcz < 8
    ensures 0 <= LegacyChunkIndexOf(lcx, lcy, lcz) < 128
    ensures LegacyChunkIndexOf(lcx, lcy, lcz) % 8 == lcx
    ensures LegacyChunkIndexOf(lcx, lcy, lcz) / 8 % 2 == lcy
    ensures LegacyChunkIndexOf(lcx, lcy, lcz) / 16 == lcz
  {
    var i := LegacyChunkIndexOf(lcx, lcy, lcz);
    assert i == lcx + 8 * (lcy + 2 * lcz);
    ModUnique(i, 8, lcy + 2 * lcz, lcx);
    assert i / 8 == lcy + 2 * lcz;
    ModUnique(i / 8, 2, lcz, lcy);
    ModUnique(i, 16, lcz, lcx + 8 * lcy);
  }

  /** `x % 24` on a metric coordinate: the truncating remainder, in `(-24, 24)` with the sign of `x`. */
  function ChunkRemainder(x: real): (r: real)
    ensures x >= 0.0 ==> 0.0 <= r < 24.0 && r == x - 24.0 * Floor(x / 24.0) as real
    ensures x < 0.0 ==> -24.0 < r <= 0.0
  {
    JsRealRem(x, OctreeConfig.MiniChunkSizeMeters())
  }

  /** `Math.floor((x % 24) / 1.5)`: the local voxel coordinate of the older accessor. */
  function LegacyVoxelCoord(x: real): (v: int)
    ensures x >= 0.0 ==> 0 <= v < 16 && v == Floor(x / 1.5) - 16 * Floor(x / 24.0)
    ensures x < 0.0 ==> -16 <= v <= 0
  {
    var r := ChunkRemainder(x);
    var v := Floor(r / OctreeConfig.VOXEL_SIZE_METERS);
    if x >= 0.0 then
      var c := Floor(x / 24.0);
      assert r / 1.5 == x / 1.5 - (16 * c) as real;
      FloorShift(x / 1.5, 16 * c);
      v
    else v
  }

  /** Subtracting an integer commutes with `Math.floor`. */
  lemma FloorShift(r: real, k: int)
    ensures Floor(r - k as real) == Floor(r) - k
  {
  }

  /** `Math.floor(x / MINI_CHUNK_SIZE_METERS)`: the absolute mini-chunk coordinate along one axis. */
  function AbsChunk(x: real): (c: int)
    ensures x >= 0.0 ==> c >= 0
    ensures x < 0.0 ==> c < 0
  {
    Floor(x / OctreeConfig.MiniChunkSizeMeters())
  }

  /** The mini-chunk of a coordinate is its floor quotient by 24 metres. */
  lemma AbsChunkFloor(x: real)
    ensures AbsChunk(x) == Floor(x / 24.0)
  {
    assert OctreeConfig.MiniChunkSizeMeters() == 24.0;
  }

  /** `absC % perSide`: the local mini-chunk coordinate along one axis, with the sign of `x`. */
  function LegacyLocalChunk(x: real, perSide: int): (l: int)
    requires perSide > 0
    ensures x >= 0.0 ==> l == AbsChunk(x) % perSide
    ensures -perSide < l < perSide
  {
    JsRemToFloorMod(AbsChunk(x), perSide);
    JsRem(AbsChunk(x), perSide)
  }

  /** `getChunkAndVoxelCoords(x, y, z)` of the older accessor. */
  function LegacyChunkAndVoxelCoords(x: real, y: real, z: real): (c: ChunkCoords)
    ensures -16 <= c.vx < 16 && -16 <= c.vy < 16 && -16 <= c.vz < 16
    ensures x < 0.0 ==> c.vx <= 0
  {
    var rx := FloorDiv(AbsChunk(x), OctreeConfig.REGION_CHUNKS_PER_SIDE_XZ);
    var ry := FloorDiv(AbsChunk(y), OctreeConfig.REGION_CHUNKS_PER_SIDE_Y);
    var rz := FloorDiv(AbsChunk(z), OctreeConfig.REGION_CHUNKS_PER_SIDE_XZ);
    var chunkIndex := LegacyChunkIndexOf(LegacyLocalChunk(x, OctreeConfig.REGION_CHUNKS_PER_SIDE_XZ),
                                         LegacyLocalChunk(y, OctreeConfig.REGION_CHUNKS_PER_SIDE_Y),
                                         LegacyLocalChunk(z, OctreeConfig.REGION_CHUNKS_PER_SIDE_XZ));
    ChunkCoords(rx, ry, rz, chunkIndex, LegacyVoxelCoord(x), LegacyVoxelCoord(y), LegacyVoxelCoord(z))
  }

  /**
   * For a point with non-negative coordinates the older accessor locates the
   * same region and voxel as the octree accessor, and the same mini-chunk
   * under the other index order.
   */
  lemma AgreesWithOctreeAccessor(x: real, y: real, z: real)
    requires x >= 0.0 && y >= 0.0 && z >= 0.0
    ensures var c := LegacyChunkAndVoxelCoords(x, y, z);
      var a := ChunkAndVoxelCoords(x, y, z);
      c.(chunkIndex := 0) == a.(chunkIndex := 0) &&
      0 <= c.chunkIndex < 128 &&
      c.chunkIndex == LegacyChunkIndexOf(a.chunkIndex % 8, a.chunkIndex / 64, a.chunkIndex / 8 % 8)
  {
    var a := ChunkAndVoxelCoords(x, y, z);
    var cx, cy, cz := AbsChunk(x), AbsChunk(y), AbsChunk(z);
    AbsChunkFloor(x);
    AbsChunkFloor(y);
    AbsChunkFloor(z);
    LegacyCoordsParts(x, y, z);
    AppIndexParts(cx, cy, cz, a.rx, a.ry, a.rz, a.chunkIndex);
    LegacyChunkIndexBijective(cx % 8, cy % 2, cz % 8);
    VoxelInChunk(x);
    VoxelInChunk(y);
    VoxelInChunk(z);
  }

  /** The parts of the older accessor's result for a point with non-negative coordinates. */
  lemma LegacyCoordsParts(x: real, y: real, z: real)
    requires x >= 0.0 && y >= 0.0 && z >= 0.0
    ensures var c := LegacyChunkAndVoxelCoords(x, y, z);
      var cx, cy, cz := AbsChunk(x), AbsChunk(y), AbsChunk(z);
      cx >= 0 && cy >= 0 && cz >= 0 &&
      c.rx == cx / 8 && c.ry == cy / 2 && c.rz == cz / 8 &&
      c.chunkIndex == LegacyChunkIndexOf(cx % 8, cy % 2, cz % 8)
  {
  }

  /** The region and index the octree accessor returns are the floor quotient and remainder of the absolute mini-chunk. */
  lemma AppIndexParts(cx: int, cy: int, cz: int, rx: int, ry: int, rz: int, i: int)
    requires 0 <= i < 128
    requires rx * 8 + i % 8 == cx && rz * 8 + i / 8 % 8 == cz && ry * 2 + i / 64 == cy
    ensures i % 8 == cx % 8 && i / 8 % 8 == cz % 8 && i / 64 == cy % 2
    ensures rx == cx / 8 && ry == cy / 2 && rz == cz / 8
  {
    ModUnique(cx, 8, rx, i % 8);
    ModUnique(cz, 8, rz, i / 8 % 8);
    ModUnique(cy, 2, ry, i / 64);
  }

  /** An index of `[0, 128)` is the octree accessor's index of its own three parts. */
  lemma ChunkIndexRecompose(i: int)
    requires 0 <= i < 128
    ensures i == ChunkIndexOf(i % 8, i / 64, i / 8 % 8)
  {
  }

  /** `localX %= halfSize` for an integer `x` of either sign and `halfSize = 2^h`. */
  function LegacyRemainder(x: int, h: int): (r: int)
    ensures x >= 0 ==> r == RemainderByHalf(x, h)
    ensures h >= 0 && x < 0 ==> -(OctreeConfig.Pow2(h) as int) < r <= 0
  {
    if h >= 0 then
      JsRemToFloorMod(x, OctreeConfig.Pow2(h));
      JsRem(x, OctreeConfig.Pow2(h))
    else 0
  }

  /**
   * The lookup `traverseOctree` performs from `n` at `level` with side `2^e`:
   * descend while the node is not a leaf, has a children array and lies
   * above depth 9; stepping into a missing child throws.
   */
  function LegacyDescend(n: Node, x: int, y: int, z: int, e: int, level: int): (r: Result<VoxelInfo, TraversalError>)
    ensures r.Ok? ==> r.value.found && r.value.density == (if r.value.id != OctreeConfig.VOXEL_ID_AIR then 1 else 0)
    ensures r.Ok? && level <= MAX_DEPTH ==> level <= r.value.level <= MAX_DEPTH
    decreases n
  {
    if !LegacyOctreeSerializer.LegacyIsLeaf(n) && n.children.Slots? && level < MAX_DEPTH then
      var h := e - 1;
      var i := ChildIndex(x, y, z, h);
      var slots := n.children.slots;
      if i >= |slots| || slots[i].NullSlot? then Err(MissingChild)
      else
        assert slots[i] in slots;
        LegacyDescend(slots[i].node, LegacyRemainder(x, h), LegacyRemainder(y, h), LegacyRemainder(z, h), h, level + 1)
    else
      Ok(InfoOf(n, level))
  }

  /** `traverseOctree(node, vx, vy, vz)`: the side of the root is `16 >> node.level`. */
  method TraverseOctree(node: Node, vx: int, vy: int, vz: int) returns (r: Result<VoxelInfo, TraversalError>)
    requires 0 <= node.level <= 4
    ensures r == LegacyDescend(node, vx, vy, vz, ROOT_SIZE_EXPONENT - node.level, node.level)
  {
    var current := node;
    var currentLevel := current.level;
    var sizeExp := ROOT_SIZE_EXPONENT - currentLevel;
    var localX, localY, localZ := vx, vy, vz;
    while !LegacyOctreeSerializer.LegacyIsLeaf(current) && current.children.Slots? && currentLevel < MAX_DEPTH
      invariant LegacyDescend(current, localX, localY, localZ, sizeExp, currentLevel)
             == LegacyDescend(node, vx, vy, vz, ROOT_SIZE_EXPONENT - node.level, node.level)
      decreases MAX_DEPTH - currentLevel
    {
      var halfExp := sizeExp - 1;
      var childIndex := ChildIndex(localX, localY, localZ, halfExp);
      var slots := current.children.slots;
      if childIndex >= |slots| || slots[childIndex].NullSlot? {
        return Err(MissingChild);
      }
      current := slots[childIndex].node;
      localX := LegacyRemainder(localX, halfExp);
      localY := LegacyRemainder(localY, halfExp);
      localZ := LegacyRemainder(localZ, halfExp);
      currentLevel := currentLevel + 1;
      sizeExp := halfExp;
    }
    r := Ok(InfoOf(current, currentLevel));
  }

  /** `getVoxelInfo(x, y, z)` with the world's root lookup as a parameter: air with `found` false for a missing root. */
  method GetVoxelInfo(x: real, y: real, z: real, chunkRoot: (int, int, int, int) -> Option<Node>)
    returns (r: Result<VoxelInfo, TraversalError>)
    requires forall rx, ry, rz, ci :: chunkRoot(rx, ry, rz, ci).Some? ==> 0 <= chunkRoot(rx, ry, rz, ci).value.level <= 4
    ensures var c := LegacyChunkAndVoxelCoords(x, y, z);
      match chunkRoot(c.rx, c.ry, c.rz, c.chunkIndex)
      case None => r == Ok(VoxelInfo(OctreeConfig.VOXEL_ID_AIR, 0, 0, false))
      case Some(root) => r == LegacyDescend(root, c.vx, c.vy, c.vz, ROOT_SIZE_EXPONENT - root.level, root.level)
  {
    var coords := LegacyChunkAndVoxelCoords(x, y, z);
    var root := chunkRoot(coords.rx, coords.ry, coords.rz, coords.chunkIndex);
    if root.None? {
      return Ok(VoxelInfo(OctreeConfig.VOXEL_ID_AIR, 0, 0, false));
    }
    r := TraverseOctree(root.value, coords.vx, coords.vy, coords.vz);
  }

  // ---------------------------------------------------------------- properties

  /**
   * On a tree the octree codec reproduces, with non-negative local
   * coordinates, the older descent never throws and finds what the octree
   * accessor's descent finds.
   */
  lemma {:induction false} AgreesOnWellFormedTrees(n: Node, x: int, y: int, z: int, e: int, level: int)
    requires OctreeSerializer.WellFormed(n, level)
    requires x >= 0 && y >= 0 && z >= 0
    ensures LegacyDescend(n, x, y, z, e, level) == Ok(Descend(n, x, y, z, e, level))
    decreases n
  {
    if n.materialID == OctreeConfig.VOXEL_ID_CUT && level < MAX_DEPTH {
      var h := e - 1;
      var i := ChildIndex(x, y, z, h);
      assert n.children.slots[i] in n.children.slots;
      AgreesOnWellFormedTrees(n.children.slots[i].node, RemainderByHalf(x, h), RemainderByHalf(y, h), RemainderByHalf(z, h),
                              h, level + 1);
    }
  }

  /** The two index orders disagree: the upper mini-chunk of a column is 64 in one and 8 in the other. */
  lemma IndexOrdersDiffer()
    ensures ChunkAndVoxelCoords(0.0, 24.0, 0.0).chunkIndex == 64
    ensures LegacyChunkAndVoxelCoords(0.0, 24.0, 0.0).chunkIndex == 8
  {
    assert Floor(24.0 / 24.0) == 1;
    assert Floor(0.0 / 24.0) == 0;
  }

  /** Just below zero the truncating remainder gives a negative mini-chunk index and voxel coordinate. */
  lemma NegativeCoordinateExample()
    ensures LegacyChunkAndVoxelCoords(-0.1, 0.0, 0.0) == ChunkCoords(-1, 0, 0, -1, -1, 0, 0)
  {
    assert Floor(-0.1 / 24.0) == -1;
    assert Floor(0.0 / 24.0) == 0;
    assert Trunc(-0.1 / 24.0) == 0;
    assert Floor(-0.1 / 1.5) == -1;
  }

  /** An interior root with a missing child makes the lookup throw where the octree accessor returns air. */
  lemma MissingChildExample()
    ensures var root := WithChildrenInitialized(NewNode(0, 1));
      LegacyDescend(root, 0, 0, 0, 4, 0) == Err(MissingChild) &&
      Descend(root, 0, 0, 0, 4, 0) == VoxelInfo(OctreeConfig.VOXEL_ID_AIR, 0, 0, true)
  {
  }
}
