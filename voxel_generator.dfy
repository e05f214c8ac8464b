/**
 * Procedural mini-chunk generation (tools/VoxelGenerator.js).
 *
 * A chunk is generated top-down: a node of side 1 is a voxel leaf whose
 * material depends only on its world height; a larger node gets eight
 * children of half the side, and is replaced by a single leaf when all
 * eight children are leaves of one material. The test for "is a leaf" is
 * `isLeaf()`, which holds only for a node whose state is `null`; every
 * constructed node has a state, so the replacement never happens and the
 * generator always returns the complete tree down to single voxels.
 */
module VoxelGenerator {
  import opened Wrappers
  import opened JsNumbers
  import opened Octree
  import OctreeConfig
  import OctreeSerializer
  import VoxelAccessor

  /** `#getLocalYFromIndex`: the vertical layer of a chunk index, `Math.floor(chunkIndex / 64)`. */
  function LocalYFromIndex(chunkIndex: int): (y: int)
    ensures y == chunkIndex / 64
    ensures 0 <= chunkIndex < 128 ==> 0 <= y < 2
  {
    VoxelAccessor.FloorDiv(chunkIndex, OctreeConfig.REGION_CHUNKS_PER_SIDE_XZ * OctreeConfig.REGION_CHUNKS_PER_SIDE_XZ)
  }

  /** The chunk index the accessor computes carries the vertical layer the generator reads back. */
  lemma LocalYMatchesAccessor(lcx: int, lcy: int, lcz: int)
    requires 0 <= lcx < 8 && 0 <= lcy < 2 && 0 <= lcz < 8
    ensures LocalYFromIndex(VoxelAccessor.ChunkIndexOf(lcx, lcy, lcz)) == lcy
  {
    VoxelAccessor.ChunkIndexBijective(lcx, lcy, lcz);
  }

  /** The absolute vertical voxel index of local voxel row `vy` of a chunk. */
  function AbsoluteVoxelY(ry: int, chunkIndex: int, vy: int): int
  {
    (ry * OctreeConfig.REGION_CHUNKS_PER_SIDE_Y + LocalYFromIndex(chunkIndex)) * OctreeConfig.MINI_CHUNK_SIDE_VOXELS + vy
  }

  /**
   * `#getMaterialAtVoxel`: ground (1) below 10 m, grass (2) below 12 m,
   * air above. With 1.5 m voxels the thresholds fall after voxel rows 6 and 7.
   */
  function MaterialAtVoxel(ry: int, chunkIndex: int, vy: int): (m: int)
    ensures var a := AbsoluteVoxelY(ry, chunkIndex, vy);
      (m == 1 <==> a <= 6) && (m == 2 <==> a == 7) && (m == OctreeConfig.VOXEL_ID_AIR <==> a >= 8)
    ensures 0 <= m <= 2
  {
    var worldY := AbsoluteVoxelY(ry, chunkIndex, vy) as real * OctreeConfig.VOXEL_SIZE_METERS;
    if worldY < 10.0 then 1
    else if worldY < 12.0 then 2
    else OctreeConfig.VOXEL_ID_AIR
  }

  /** A side length the recursion halves down to 1. */
  predicate IsPowerOfTwo(n: nat)
    decreases n
  {
    n == 1 || (n >= 2 && n % 2 == 0 && IsPowerOfTwo(n / 2))
  }

  /** The offset of octant `i` along the axis of bit `mask` (4 for x, 2 for y, 1 for z): `(i & mask) ? half : 0`. */
  function OctantOffset(i: int, mask: int, half: int): (o: int)
    requires 0 <= i < 8 && (mask == 1 || mask == 2 || mask == 4)
    ensures o == 0 || o == half
  {
    if (i / mask) % 2 == 1 then half else 0
  }

  /**
   * The tree generated for the box of side `size` at local corner
   * `(vx, vy, vz)`: a voxel leaf at side 1, otherwise an interior node whose
   * child `i` covers the octant offset by `i`'s bits.
   */
  function CompleteTree(level: int, vx: int, vy: int, vz: int, size: nat, ry: int, chunkIndex: int): (t: Node)
    requires IsPowerOfTwo(size)
    ensures t.level == level && !IsLeafNode(t)
    ensures size <= 1 ==> t == NewNode(level, MaterialAtVoxel(ry, chunkIndex, vy))
    ensures size > 1 ==> t.materialID == OctreeConfig.VOXEL_ID_CUT && t.children.Slots? && |t.children.slots| == 8
    decreases size, 1
  {
    if size <= 1 then NewNode(level, MaterialAtVoxel(ry, chunkIndex, vy))
    else NewNode(level, OctreeConfig.VOXEL_ID_CUT).(children := Slots(CompleteOctants(level, vx, vy, vz, size / 2, ry, chunkIndex)))
  }

  /** The slots of the eight generated octants of the box of side `2 * half` at `(vx, vy, vz)`. */
  function CompleteOctants(level: int, vx: int, vy: int, vz: int, half: nat, ry: int, chunkIndex: int): (cs: seq<Slot>)
    requires IsPowerOfTwo(half)
    ensures |cs| == 8
    decreases 2 * half, 0
  {
    seq(8, i requires 0 <= i < 8 =>
      Child(CompleteTree(level + 1, vx + OctantOffset(i, 4, half), vy + OctantOffset(i, 2, half),
                         vz + OctantOffset(i, 1, half), half, ry, chunkIndex)))
  }

  /** Child `i` of a generated interior node is the generated octant `i`, whose corner is `(cx, cy, cz)`. */
  lemma CompleteChild(level: int, vx: int, vy: int, vz: int, size: nat, ry: int, chunkIndex: int, i: int, half: nat,
                      cx: int, cy: int, cz: int)
    requires IsPowerOfTwo(size) && size > 1 && 0 <= i < 8 && half == size / 2
    requires cx == vx + OctantOffset(i, 4, half) && cy == vy + OctantOffset(i, 2, half) && cz == vz + OctantOffset(i, 1, half)
    ensures IsPowerOfTwo(half)
    ensures var t := CompleteTree(level, vx, vy, vz, size, ry, chunkIndex);
      t.children.Slots? && |t.children.slots| == 8 && t.children.slots[i] == Child(CompleteTree(level + 1, cx, cy, cz, half, ry, chunkIndex))
  {
  }

  /** Slot `i` of the generated octants holds the box at corner `(cx, cy, cz)`. */
  lemma OctantSlot(level: int, vx: int, vy: int, vz: int, half: nat, ry: int, chunkIndex: int, i: int, cx: int, cy: int, cz: int)
    requires IsPowerOfTwo(half) && 0 <= i < 8
    requires cx == vx + OctantOffset(i, 4, half) && cy == vy + OctantOffset(i, 2, half) && cz == vz + OctantOffset(i, 1, half)
    ensures CompleteOctants(level, vx, vy, vz, half, ry, chunkIndex)[i] == Child(CompleteTree(level + 1, cx, cy, cz, half, ry, chunkIndex))
  {
  }

  /** `#generateNodeRecursive(level, vx, vy, vz, size, ...)`. */
  method GenerateNodeRecursive(level: int, vx: int, vy: int, vz: int, size: nat, ry: int, chunkIndex: int)
    returns (node: Node)
    requires IsPowerOfTwo(size)
    ensures node == CompleteTree(level, vx, vy, vz, size, ry, chunkIndex)
    decreases size
  {
    if size <= 1 {
      var materialID := MaterialAtVoxel(ry, chunkIndex, vy);
      return NewNode(level, materialID);
    }
    var halfSize := size / 2;
    var children: seq<Slot> := [];
    var firstMaterialID := -1;
    var isMixed := false;
    ghost var octants := CompleteOctants(level, vx, vy, vz, halfSize, ry, chunkIndex);
    for i := 0 to 8
      invariant children == octants[..i]
      invariant isMixed == (i > 0) && firstMaterialID == -1
    {
      var offsetX := OctantOffset(i, 4, halfSize);
      var offsetY := OctantOffset(i, 2, halfSize);
      var offsetZ := OctantOffset(i, 1, halfSize);
      var childNode := GenerateNodeRecursive(level + 1, vx + offsetX, vy + offsetY, vz + offsetZ, halfSize, ry, chunkIndex);
      OctantSlot(level, vx, vy, vz, halfSize, ry, chunkIndex, i, vx + offsetX, vy + offsetY, vz + offsetZ);
      assert octants[..i + 1] == octants[..i] + [octants[i]];
      children := children + [Child(childNode)];
      if IsLeafNode(childNode) {
        if firstMaterialID == -1 {
          firstMaterialID := childNode.materialID;
        } else if firstMaterialID != childNode.materialID {
          isMixed := true;
        }
      } else {
        isMixed := true;
      }
    }
    if !isMixed && firstMaterialID != -1 {
      return NewNode(level, firstMaterialID);
    }
    assert children == octants;
    node := NewNode(level, OctreeConfig.VOXEL_ID_CUT).(children := Slots(children));
  }

  /** `generateChunk(rName, rx, ry, rz, chunkIndex)`: the tree of a 16-voxel mini-chunk from level 0. */
  method GenerateChunk(ry: int, chunkIndex: int) returns (root: Node)
    ensures root == CompleteTree(0, 0, 0, 0, OctreeConfig.MINI_CHUNK_SIDE_VOXELS, ry, chunkIndex)
  {
    assert IsPowerOfTwo(16) by {
      assert IsPowerOfTwo(1) && IsPowerOfTwo(2) && IsPowerOfTwo(4) && IsPowerOfTwo(8);
    }
    root := GenerateNodeRecursive(0, 0, 0, 0, OctreeConfig.MINI_CHUNK_SIDE_VOXELS, ry, chunkIndex);
  }

  // ---------------------------------------------------------------- properties

  lemma {:induction false} Pow2IsPowerOfTwo(k: nat)
    ensures IsPowerOfTwo(OctreeConfig.Pow2(k))
    ensures k >= 1 ==> OctreeConfig.Pow2(k) / 2 == OctreeConfig.Pow2(k - 1) && OctreeConfig.Pow2(k) >= 2
  {
    if k >= 1 {
      Pow2IsPowerOfTwo(k - 1);
    }
  }

  /** The octant picked by the accessor's `childIndex` is the one the generator offsets by the same bits. */
  lemma OctantOfChildIndex(x: int, y: int, z: int, h: int, half: int)
    ensures var i := VoxelAccessor.ChildIndex(x, y, z, h);
      OctantOffset(i, 4, half) == (if VoxelAccessor.AtLeastHalf(x, h) then half else 0) &&
      OctantOffset(i, 2, half) == (if VoxelAccessor.AtLeastHalf(y, h) then half else 0) &&
      OctantOffset(i, 1, half) == (if VoxelAccessor.AtLeastHalf(z, h) then half else 0)
  {
  }

  /** One step of the accessor's descent into an existing child. */
  lemma DescendIntoChild(t: Node, x: int, y: int, z: int, e: int, level: int)
    requires x >= 0 && y >= 0 && z >= 0
    requires !IsLeafNode(t) && t.children.Slots? && level < VoxelAccessor.MAX_DEPTH
    requires var i := VoxelAccessor.ChildIndex(x, y, z, e - 1); i < |t.children.slots| && t.children.slots[i].Child?
    ensures var i := VoxelAccessor.ChildIndex(x, y, z, e - 1);
      VoxelAccessor.Descend(t, x, y, z, e, level)
      == VoxelAccessor.Descend(t.children.slots[i].node, VoxelAccessor.RemainderByHalf(x, e - 1),
                               VoxelAccessor.RemainderByHalf(y, e - 1), VoxelAccessor.RemainderByHalf(z, e - 1), e - 1, level + 1)
  {
  }

  /** A local coordinate below `2 * half` moves into the chosen half: subtract `half` exactly when it was in the upper one. */
  lemma LocalInHalf(l: int, h: nat)
    requires 0 <= l < 2 * OctreeConfig.Pow2(h)
    ensures var r := VoxelAccessor.RemainderByHalf(l, h);
      0 <= r < OctreeConfig.Pow2(h) && l == r + (if VoxelAccessor.AtLeastHalf(l, h) then OctreeConfig.Pow2(h) else 0)
  {
  }

  /** One step of the descent through a node whose child in the chosen octant is `c`. */
  lemma DescendStep(t: Node, c: Node, x: int, y: int, z: int, k: nat, level: int) returns (nx: int, ny: int, nz: int)
    requires k >= 1 && 0 <= x < OctreeConfig.Pow2(k) && 0 <= y < OctreeConfig.Pow2(k) && 0 <= z < OctreeConfig.Pow2(k)
    requires !IsLeafNode(t) && t.children.Slots? && level < VoxelAccessor.MAX_DEPTH
    requires var i := VoxelAccessor.ChildIndex(x, y, z, k - 1); i < |t.children.slots| && t.children.slots[i] == Child(c)
    ensures 0 <= nx < OctreeConfig.Pow2(k - 1) && 0 <= ny < OctreeConfig.Pow2(k - 1) && 0 <= nz < OctreeConfig.Pow2(k - 1)
    ensures x == nx + (if VoxelAccessor.AtLeastHalf(x, k - 1) then OctreeConfig.Pow2(k - 1) else 0)
    ensures y == ny + (if VoxelAccessor.AtLeastHalf(y, k - 1) then OctreeConfig.Pow2(k - 1) else 0)
    ensures z == nz + (if VoxelAccessor.AtLeastHalf(z, k - 1) then OctreeConfig.Pow2(k - 1) else 0)
    ensures VoxelAccessor.Descend(t, x, y, z, k, level) == VoxelAccessor.Descend(c, nx, ny, nz, k - 1, level + 1)
  {
    var h: nat := k - 1;
    assert OctreeConfig.Pow2(k) == 2 * OctreeConfig.Pow2(h);
    DescendIntoChild(t, x, y, z, k, level);
    LocalInHalf(x, h);
    LocalInHalf(y, h);
    LocalInHalf(z, h);
    nx, ny, nz := VoxelAccessor.RemainderByHalf(x, h), VoxelAccessor.RemainderByHalf(y, h), VoxelAccessor.RemainderByHalf(z, h);
  }

  /**
   * Looking up a voxel of a generated box with the accessor's descent
   * reaches the voxel leaf, `k` levels down, and returns the material the
   * generator assigned to that voxel's height.
   */
  lemma {:induction false} CompleteTreeLookup(level: int, ox: int, oy: int, oz: int, k: nat, ry: int, chunkIndex: int,
                                              lx: int, ly: int, lz: int)
    requires 0 <= lx < OctreeConfig.Pow2(k) && 0 <= ly < OctreeConfig.Pow2(k) && 0 <= lz < OctreeConfig.Pow2(k)
    requires level + k <= VoxelAccessor.MAX_DEPTH
    ensures IsPowerOfTwo(OctreeConfig.Pow2(k)) &&
      var info := VoxelAccessor.Descend(CompleteTree(level, ox, oy, oz, OctreeConfig.Pow2(k), ry, chunkIndex), lx, ly, lz, k, level);
      info.found && info.level == level + k && info.id == MaterialAtVoxel(ry, chunkIndex, oy + ly)
    decreases k
  {
    Pow2IsPowerOfTwo(k);
    if k == 0 {
      CompleteLeafLookup(level, ox, oy, oz, ry, chunkIndex);
    } else {
      var cx, cy, cz, nx, ny, nz := CompleteStep(level, ox, oy, oz, k, ry, chunkIndex, lx, ly, lz);
      CompleteTreeLookup(level + 1, cx, cy, cz, k - 1, ry, chunkIndex, nx, ny, nz);
      var info := VoxelAccessor.Descend(CompleteTree(level + 1, cx, cy, cz, OctreeConfig.Pow2(k - 1), ry, chunkIndex), nx, ny, nz, k - 1, level + 1);
      assert info.id == MaterialAtVoxel(ry, chunkIndex, oy + ly) && info.level == level + k;
    }
  }

  /** The descent at a voxel leaf of the generated tree reports its material. */
  lemma CompleteLeafLookup(level: int, ox: int, oy: int, oz: int, ry: int, chunkIndex: int)
    requires level <= VoxelAccessor.MAX_DEPTH
    ensures IsPowerOfTwo(OctreeConfig.Pow2(0)) &&
      var info := VoxelAccessor.Descend(CompleteTree(level, ox, oy, oz, OctreeConfig.Pow2(0), ry, chunkIndex), 0, 0, 0, 0, level);
      info.found && info.level == level && info.id == MaterialAtVoxel(ry, chunkIndex, oy)
  {
    assert OctreeConfig.Pow2(0) == 1 && IsPowerOfTwo(1);
    var t := CompleteTree(level, ox, oy, oz, 1, ry, chunkIndex);
    assert t == NewNode(level, MaterialAtVoxel(ry, chunkIndex, oy));
    assert VoxelAccessor.Descend(t, 0, 0, 0, 0, level) == VoxelAccessor.InfoOf(t, level);
  }

  /** One step of the descent through an interior node of the generated tree, into the octant holding the local point. */
  lemma CompleteStep(level: int, ox: int, oy: int, oz: int, k: nat, ry: int, chunkIndex: int, lx: int, ly: int, lz: int)
    returns (cx: int, cy: int, cz: int, nx: int, ny: int, nz: int)
    requires k >= 1 && 0 <= lx < OctreeConfig.Pow2(k) && 0 <= ly < OctreeConfig.Pow2(k) && 0 <= lz < OctreeConfig.Pow2(k)
    requires level + k <= VoxelAccessor.MAX_DEPTH
    ensures IsPowerOfTwo(OctreeConfig.Pow2(k)) && IsPowerOfTwo(OctreeConfig.Pow2(k - 1))
    ensures 0 <= nx < OctreeConfig.Pow2(k - 1) && 0 <= ny < OctreeConfig.Pow2(k - 1) && 0 <= nz < OctreeConfig.Pow2(k - 1)
    ensures cy + ny == oy + ly
    ensures VoxelAccessor.Descend(CompleteTree(level, ox, oy, oz, OctreeConfig.Pow2(k), ry, chunkIndex), lx, ly, lz, k, level)
         == VoxelAccessor.Descend(CompleteTree(level + 1, cx, cy, cz, OctreeConfig.Pow2(k - 1), ry, chunkIndex), nx, ny, nz, k - 1, level + 1)
  {
    cx, cy, cz := CompleteOctantOf(level, ox, oy, oz, k, ry, chunkIndex, lx, ly, lz);
    var t := CompleteTree(level, ox, oy, oz, OctreeConfig.Pow2(k), ry, chunkIndex);
    var c := CompleteTree(level + 1, cx, cy, cz, OctreeConfig.Pow2(k - 1), ry, chunkIndex);
    nx, ny, nz := DescendStep(t, c, lx, ly, lz, k, level);
  }

  /** The child of a generated interior node in the octant the accessor picks for a local point, and its corner. */
  lemma CompleteOctantOf(level: int, ox: int, oy: int, oz: int, k: nat, ry: int, chunkIndex: int, lx: int, ly: int, lz: int)
    returns (cx: int, cy: int, cz: int)
    requires k >= 1
    ensures IsPowerOfTwo(OctreeConfig.Pow2(k)) && IsPowerOfTwo(OctreeConfig.Pow2(k - 1))
    ensures cy == oy + (if VoxelAccessor.AtLeastHalf(ly, k - 1) then OctreeConfig.Pow2(k - 1) else 0)
    ensures var t := CompleteTree(level, ox, oy, oz, OctreeConfig.Pow2(k), ry, chunkIndex);
      var i := VoxelAccessor.ChildIndex(lx, ly, lz, k - 1);
      !IsLeafNode(t) && t.children.Slots? && 0 <= i < |t.children.slots|
      && t.children.slots[i] == Child(CompleteTree(level + 1, cx, cy, cz, OctreeConfig.Pow2(k - 1), ry, chunkIndex))
  {
    var h: nat := k - 1;
    var half := OctreeConfig.Pow2(h);
    Pow2IsPowerOfTwo(k);
    Pow2IsPowerOfTwo(h);
    var i := VoxelAccessor.ChildIndex(lx, ly, lz, h);
    OctantOfChildIndex(lx, ly, lz, h, half);
    cx, cy, cz := ox + OctantOffset(i, 4, half), oy + OctantOffset(i, 2, half), oz + OctantOffset(i, 1, half);
    CompleteChild(level, ox, oy, oz, OctreeConfig.Pow2(k), ry, chunkIndex, i, half, cx, cy, cz);
  }

  /** The voxel `(vx, vy, vz)` of a generated mini-chunk holds the material of its absolute row. */
  lemma GeneratedChunkLookup(ry: int, chunkIndex: int, vx: int, vy: int, vz: int)
    requires 0 <= vx < 16 && 0 <= vy < 16 && 0 <= vz < 16
    ensures var info := VoxelAccessor.Descend(CompleteTree(0, 0, 0, 0, OctreeConfig.MINI_CHUNK_SIDE_VOXELS, ry, chunkIndex),
                                              vx, vy, vz, VoxelAccessor.ROOT_SIZE_EXPONENT, 0);
      info.found && info.level == 4 && info.id == MaterialAtVoxel(ry, chunkIndex, vy)
  {
    assert OctreeConfig.Pow2(4) == 16;
    CompleteTreeLookup(0, 0, 0, 0, 4, ry, chunkIndex, vx, vy, vz);
  }

  /**
   * End to end: when every mini-chunk is the generator's tree, the voxel the
   * accessor finds at a world point has the material of that point's height:
   * ground up to voxel row 6, grass in row 7, air above.
   */
  lemma GeneratedWorldLookup(x: real, y: real, z: real)
    ensures var c := VoxelAccessor.ChunkAndVoxelCoords(x, y, z);
      var info := VoxelAccessor.Descend(CompleteTree(0, 0, 0, 0, OctreeConfig.MINI_CHUNK_SIDE_VOXELS, c.ry, c.chunkIndex),
                                        c.vx, c.vy, c.vz, VoxelAccessor.ROOT_SIZE_EXPONENT, 0);
      var row := Floor(y / OctreeConfig.VOXEL_SIZE_METERS);
      info.found && info.level == 4 &&
      (info.id == 1 <==> row <= 6) && (info.id == 2 <==> row == 7) && (info.id == OctreeConfig.VOXEL_ID_AIR <==> row >= 8)
  {
    var c := VoxelAccessor.ChunkAndVoxelCoords(x, y, z);
    GeneratedChunkLookup(c.ry, c.chunkIndex, c.vx, c.vy, c.vz);
    RowOfCoords(x, y, z);
  }

  /** The generator's absolute row of the accessor's voxel is the row of the height `y`. */
  lemma RowOfCoords(x: real, y: real, z: real)
    ensures var c := VoxelAccessor.ChunkAndVoxelCoords(x, y, z);
      AbsoluteVoxelY(c.ry, c.chunkIndex, c.vy) == Floor(y / OctreeConfig.VOXEL_SIZE_METERS)
  {
    var c := VoxelAccessor.ChunkAndVoxelCoords(x, y, z);
    var chunkRow := Floor(y / 24.0);
    assert c.ry * 2 + c.chunkIndex / 64 == chunkRow;
    assert chunkRow * 16 + c.vy == Floor(y / 1.5);
  }

  /** Every generated tree is one the octree codec reproduces. */
  lemma {:induction false} CompleteTreeWellFormed(level: int, vx: int, vy: int, vz: int, size: nat, ry: int, chunkIndex: int)
    requires IsPowerOfTwo(size)
    ensures OctreeSerializer.WellFormed(CompleteTree(level, vx, vy, vz, size, ry, chunkIndex), level)
    decreases size
  {
    if size > 1 {
      var half := size / 2;
      var t := CompleteTree(level, vx, vy, vz, size, ry, chunkIndex);
      forall i | 0 <= i < 8
        ensures t.children.slots[i].Child? && OctreeSerializer.WellFormed(t.children.slots[i].node, level + 1)
      {
        var cx, cy, cz := vx + OctantOffset(i, 4, half), vy + OctantOffset(i, 2, half), vz + OctantOffset(i, 1, half);
        CompleteChild(level, vx, vy, vz, size, ry, chunkIndex, i, half, cx, cy, cz);
        CompleteTreeWellFormed(level + 1, cx, cy, cz, half, ry, chunkIndex);
      }
      OctreeSerializer.InteriorWellFormed(t, level);
    }
  }

  /** A generated chunk survives serialization: `deserialize(serialize(generateChunk(...)))` is the same tree. */
  lemma GeneratedChunkRoundTrip(ry: int, chunkIndex: int)
    ensures var root := CompleteTree(0, 0, 0, 0, OctreeConfig.MINI_CHUNK_SIDE_VOXELS, ry, chunkIndex);
      OctreeSerializer.Deserialize(Some(OctreeSerializer.Serialize(root))) == root
  {
    Pow2IsPowerOfTwo(4);
    assert OctreeConfig.Pow2(4) == 16;
    CompleteTreeWellFormed(0, 0, 0, 0, 16, ry, chunkIndex);
    OctreeSerializer.DeserializeSerialize(CompleteTree(0, 0, 0, 0, 16, ry, chunkIndex));
  }

  /** The number of nodes of a complete octree of depth `k`. */
  function FullOctreeNodes(k: nat): (n: nat)
    ensures n >= 1
  {
    if k == 0 then 1 else 1 + 8 * FullOctreeNodes(k - 1)
  }

  /** A generated box of side `2^k` has every node of the complete octree of depth `k`. */
  lemma {:induction false} CompleteTreeNodeCount(level: int, vx: int, vy: int, vz: int, k: nat, ry: int, chunkIndex: int)
    ensures IsPowerOfTwo(OctreeConfig.Pow2(k)) &&
      OctreeSerializer.NodeCount(CompleteTree(level, vx, vy, vz, OctreeConfig.Pow2(k), ry, chunkIndex)) == FullOctreeNodes(k)
    decreases k
  {
    Pow2IsPowerOfTwo(k);
    if k >= 1 {
      var half := OctreeConfig.Pow2(k - 1);
      var t := CompleteTree(level, vx, vy, vz, OctreeConfig.Pow2(k), ry, chunkIndex);
      forall i | 0 <= i < 8
        ensures t.children.slots[i].Child? && OctreeSerializer.NodeCount(t.children.slots[i].node) == FullOctreeNodes(k - 1)
      {
        var cx, cy, cz := vx + OctantOffset(i, 4, half), vy + OctantOffset(i, 2, half), vz + OctantOffset(i, 1, half);
        CompleteChild(level, vx, vy, vz, OctreeConfig.Pow2(k), ry, chunkIndex, i, half, cx, cy, cz);
        CompleteTreeNodeCount(level + 1, cx, cy, cz, k - 1, ry, chunkIndex);
      }
      UniformSlotNodeCount(t, FullOctreeNodes(k - 1), 0);
    }
  }

  /** Eight children of `f` nodes each hold `8 f` nodes. */
  lemma {:induction false} UniformSlotNodeCount(t: Node, f: nat, i: nat)
    requires t.children.Slots? && |t.children.slots| == 8 && i <= 8
    requires forall j :: 0 <= j < 8 ==> t.children.slots[j].Child? && OctreeSerializer.NodeCount(t.children.slots[j].node) == f
    ensures OctreeSerializer.SlotNodeCount(t, i) == (8 - i) * f
    decreases 8 - i
  {
    if i < 8 {
      UniformSlotNodeCount(t, f, i + 1);
      assert OctreeSerializer.SlotNodeCount(t, i) == f + (8 - (i + 1)) * f;
    }
  }

  /**
   * A mini-chunk above the grass line is air in every voxel, yet the
   * generator returns an interior root over the full tree of 4681 nodes
   * (4681 serialized bytes) instead of a single air leaf.
   */
  lemma AirChunkIsNotPruned(ry: int, chunkIndex: int)
    requires AbsoluteVoxelY(ry, chunkIndex, 0) >= 8
    ensures forall vy :: 0 <= vy < 16 ==> MaterialAtVoxel(ry, chunkIndex, vy) == OctreeConfig.VOXEL_ID_AIR
    ensures var root := CompleteTree(0, 0, 0, 0, OctreeConfig.MINI_CHUNK_SIDE_VOXELS, ry, chunkIndex);
      root.materialID == OctreeConfig.VOXEL_ID_CUT && OctreeSerializer.NodeCount(root) == 4681 &&
      |OctreeSerializer.Serialize(root)| == 4681
  {
    assert OctreeConfig.Pow2(4) == 16;
    CompleteTreeNodeCount(0, 0, 0, 0, 4, ry, chunkIndex);
    CompleteTreeWellFormed(0, 0, 0, 0, 16, ry, chunkIndex);
    OctreeSerializer.WriteWellFormed(CompleteTree(0, 0, 0, 0, 16, ry, chunkIndex), 0);
  }

  // ------------------------------------------------- pruning as evidently intended

  /**
   * The leaf test `#generateNodeRecursive` relies on: a node is a uniform
   * leaf when its state is EMPTY or SOLID (`isLeaf()` as written tests for
   * a null state, which the constructor never leaves).
   */
  predicate IntendedIsLeaf(n: Node)
  {
    n.state.Some? && n.state.value != Mixed
  }

  /** Eight children that are uniform leaves of one material, the case the generator merges. */
  predicate UniformLeaves(cs: seq<Node>)
  {
    |cs| == 8 && forall i :: 0 <= i < 8 ==> IntendedIsLeaf(cs[i]) && cs[i].materialID == cs[0].materialID
  }

  /** `#generateNodeRecursive` with the intended leaf test: uniform octants collapse into one leaf. */
  function PrunedTree(level: int, vx: int, vy: int, vz: int, size: nat, ry: int, chunkIndex: int): (t: Node)
    requires IsPowerOfTwo(size)
    ensures t.level == level
    ensures size <= 1 ==> t == NewNode(level, MaterialAtVoxel(ry, chunkIndex, vy))
    ensures IntendedIsLeaf(t) <==> t.materialID != OctreeConfig.VOXEL_ID_CUT
    ensures IntendedIsLeaf(t) ==> t == NewNode(level, t.materialID) && 0 <= t.materialID <= 2
    ensures !IntendedIsLeaf(t) ==>
      t.children.Slots? && |t.children.slots| == 8 && forall i :: 0 <= i < 8 ==> t.children.slots[i].Child?
    decreases size, 1
  {
    if size <= 1 then NewNode(level, MaterialAtVoxel(ry, chunkIndex, vy))
    else Merged(level, PrunedOctants(level, vx, vy, vz, size / 2, ry, chunkIndex))
  }

  /** The eight octants, pruned, of the box of side `2 * half` at `(vx, vy, vz)`; octant `i` is offset by `i`'s bits. */
  function PrunedOctants(level: int, vx: int, vy: int, vz: int, half: nat, ry: int, chunkIndex: int): (cs: seq<Node>)
    requires IsPowerOfTwo(half)
    ensures |cs| == 8
    decreases 2 * half, 0
  {
    seq(8, i requires 0 <= i < 8 =>
      PrunedTree(level + 1, vx + OctantOffset(i, 4, half), vy + OctantOffset(i, 2, half),
                 vz + OctantOffset(i, 1, half), half, ry, chunkIndex))
  }

  /** The node over eight octants: one leaf when they are uniform leaves of one material, else an interior node over them. */
  function Merged(level: int, cs: seq<Node>): (t: Node)
    requires |cs| == 8
  {
    if UniformLeaves(cs) then NewNode(level, cs[0].materialID)
    else NewNode(level, OctreeConfig.VOXEL_ID_CUT).(children := Slots(seq(8, i requires 0 <= i < 8 => Child(cs[i]))))
  }

  /** Child `i` of an interior pruned node is the pruned octant `i`, whose corner is `(cx, cy, cz)`. */
  lemma PrunedChild(level: int, vx: int, vy: int, vz: int, size: nat, ry: int, chunkIndex: int, i: int, half: nat,
                    cx: int, cy: int, cz: int)
    requires IsPowerOfTwo(size) && size > 1 && 0 <= i < 8 && half == size / 2
    requires cx == vx + OctantOffset(i, 4, half) && cy == vy + OctantOffset(i, 2, half) && cz == vz + OctantOffset(i, 1, half)
    requires !IntendedIsLeaf(PrunedTree(level, vx, vy, vz, size, ry, chunkIndex))
    ensures IsPowerOfTwo(half)
    ensures var t := PrunedTree(level, vx, vy, vz, size, ry, chunkIndex);
      t.children.Slots? && |t.children.slots| == 8 && t.children.slots[i] == Child(PrunedTree(level + 1, cx, cy, cz, half, ry, chunkIndex))
  {
    var cs := PrunedOctants(level, vx, vy, vz, half, ry, chunkIndex);
    assert !UniformLeaves(cs);
  }

  /** The children of an interior pruned node do not all merge. */
  lemma PrunedNotMergeable(level: int, vx: int, vy: int, vz: int, size: nat, ry: int, chunkIndex: int)
    requires IsPowerOfTwo(size) && size > 1
    requires !IntendedIsLeaf(PrunedTree(level, vx, vy, vz, size, ry, chunkIndex))
    ensures var t := PrunedTree(level, vx, vy, vz, size, ry, chunkIndex);
      !UniformLeaves(seq(8, i requires 0 <= i < 8 => t.children.slots[i].node))
  {
    var t := PrunedTree(level, vx, vy, vz, size, ry, chunkIndex);
    var cs := PrunedOctants(level, vx, vy, vz, size / 2, ry, chunkIndex);
    assert !UniformLeaves(cs);
    assert seq(8, i requires 0 <= i < 8 => t.children.slots[i].node) == cs;
  }

  /** Every voxel row in `[lo, hi)` has material `m`. */
  predicate UniformRows(ry: int, chunkIndex: int, lo: int, hi: int, m: int)
  {
    forall row :: lo <= row < hi ==> MaterialAtVoxel(ry, chunkIndex, row) == m
  }

  /** Two adjacent uniform row ranges of one material make one. */
  lemma UniformRowsJoin(ry: int, chunkIndex: int, lo: int, mid: int, hi: int, m: int)
    requires UniformRows(ry, chunkIndex, lo, mid, m) && UniformRows(ry, chunkIndex, mid, hi, m)
    ensures UniformRows(ry, chunkIndex, lo, hi, m)
  { }

  /** A pruned leaf stands for a box whose every voxel has the leaf's material. */
  lemma {:induction false} PrunedLeafIsUniform(level: int, ox: int, oy: int, oz: int, k: nat, ry: int, chunkIndex: int)
    ensures IsPowerOfTwo(OctreeConfig.Pow2(k)) &&
      var t := PrunedTree(level, ox, oy, oz, OctreeConfig.Pow2(k), ry, chunkIndex);
      IntendedIsLeaf(t) ==> UniformRows(ry, chunkIndex, oy, oy + OctreeConfig.Pow2(k), t.materialID)
    decreases k
  {
    Pow2IsPowerOfTwo(k);
    var size := OctreeConfig.Pow2(k);
    var t := PrunedTree(level, ox, oy, oz, size, ry, chunkIndex);
    if k >= 1 && IntendedIsLeaf(t) {
      var half := OctreeConfig.Pow2(k - 1);
      assert size == half + half && size / 2 == half;
      var cs := PrunedOctants(level, ox, oy, oz, half, ry, chunkIndex);
      assert t == Merged(level, cs);
      assert UniformLeaves(cs) && t.materialID == cs[0].materialID;
      // octant 0 covers the lower rows, octant 2 the upper ones
      assert cs[0] == PrunedTree(level + 1, ox, oy, oz, half, ry, chunkIndex);
      assert cs[2] == PrunedTree(level + 1, ox, oy + half, oz, half, ry, chunkIndex);
      assert IntendedIsLeaf(cs[0]) && IntendedIsLeaf(cs[2]) && cs[2].materialID == cs[0].materialID;
      PrunedLeafIsUniform(level + 1, ox, oy, oz, k - 1, ry, chunkIndex);
      PrunedLeafIsUniform(level + 1, ox, oy + half, oz, k - 1, ry, chunkIndex);
      UniformRowsJoin(ry, chunkIndex, oy, oy + half, oy + size, t.materialID);
    }
  }

  /** Conversely, a box whose voxels all share one material prunes to a single leaf of it. */
  lemma {:induction false} UniformBoxIsLeaf(level: int, ox: int, oy: int, oz: int, k: nat, ry: int, chunkIndex: int, m: int)
    requires UniformRows(ry, chunkIndex, oy, oy + OctreeConfig.Pow2(k), m)
    ensures IsPowerOfTwo(OctreeConfig.Pow2(k)) &&
      PrunedTree(level, ox, oy, oz, OctreeConfig.Pow2(k), ry, chunkIndex) == NewNode(level, m)
    decreases k
  {
    Pow2IsPowerOfTwo(k);
    assert MaterialAtVoxel(ry, chunkIndex, oy) == m;
    if k >= 1 {
      var half := OctreeConfig.Pow2(k - 1);
      var cs := PrunedOctants(level, ox, oy, oz, half, ry, chunkIndex);
      forall i | 0 <= i < 8
        ensures cs[i] == NewNode(level + 1, m)
      {
        UniformBoxIsLeaf(level + 1, ox + OctantOffset(i, 4, half), oy + OctantOffset(i, 2, half),
                         oz + OctantOffset(i, 1, half), k - 1, ry, chunkIndex, m);
      }
      assert UniformLeaves(cs);
    }
  }

  /**
   * With pruning the lookup still finds the generated material: the descent
   * stops at the first uniform leaf, no deeper than the voxel level.
   */
  lemma {:induction false} PrunedTreeLookup(level: int, ox: int, oy: int, oz: int, k: nat, ry: int, chunkIndex: int,
                                            lx: int, ly: int, lz: int)
    requires 0 <= lx < OctreeConfig.Pow2(k) && 0 <= ly < OctreeConfig.Pow2(k) && 0 <= lz < OctreeConfig.Pow2(k)
    requires level + k <= VoxelAccessor.MAX_DEPTH
    ensures IsPowerOfTwo(OctreeConfig.Pow2(k)) &&
      var info := VoxelAccessor.Descend(PrunedTree(level, ox, oy, oz, OctreeConfig.Pow2(k), ry, chunkIndex), lx, ly, lz, k, level);
      info.found && level <= info.level <= level + k && info.id == MaterialAtVoxel(ry, chunkIndex, oy + ly)
    decreases k
  {
    Pow2IsPowerOfTwo(k);
    var t := PrunedTree(level, ox, oy, oz, OctreeConfig.Pow2(k), ry, chunkIndex);
    if IntendedIsLeaf(t) {
      PrunedLeafLookup(level, ox, oy, oz, k, ry, chunkIndex, lx, ly, lz);
    } else {
      var cx, cy, cz, nx, ny, nz := PrunedStep(level, ox, oy, oz, k, ry, chunkIndex, lx, ly, lz);
      PrunedTreeLookup(level + 1, cx, cy, cz, k - 1, ry, chunkIndex, nx, ny, nz);
    }
  }

  /** The descent stops at a pruned leaf and reports its material, which is every voxel's. */
  lemma PrunedLeafLookup(level: int, ox: int, oy: int, oz: int, k: nat, ry: int, chunkIndex: int,
                         lx: int, ly: int, lz: int)
    requires 0 <= lx < OctreeConfig.Pow2(k) && 0 <= ly < OctreeConfig.Pow2(k) && 0 <= lz < OctreeConfig.Pow2(k)
    requires IsPowerOfTwo(OctreeConfig.Pow2(k)) && IntendedIsLeaf(PrunedTree(level, ox, oy, oz, OctreeConfig.Pow2(k), ry, chunkIndex))
    ensures var info := VoxelAccessor.Descend(PrunedTree(level, ox, oy, oz, OctreeConfig.Pow2(k), ry, chunkIndex), lx, ly, lz, k, level);
      info.found && info.level == level && info.id == MaterialAtVoxel(ry, chunkIndex, oy + ly)
  {
    var t := PrunedTree(level, ox, oy, oz, OctreeConfig.Pow2(k), ry, chunkIndex);
    PrunedLeafIsUniform(level, ox, oy, oz, k, ry, chunkIndex);
    assert t.children.NullChildren?;
    assert VoxelAccessor.Descend(t, lx, ly, lz, k, level) == VoxelAccessor.InfoOf(t, level);
    assert MaterialAtVoxel(ry, chunkIndex, oy + ly) == t.materialID;
  }

  /** One step of the descent through an interior pruned node, into the octant holding the local point. */
  lemma PrunedStep(level: int, ox: int, oy: int, oz: int, k: nat, ry: int, chunkIndex: int, lx: int, ly: int, lz: int)
    returns (cx: int, cy: int, cz: int, nx: int, ny: int, nz: int)
    requires 0 <= lx < OctreeConfig.Pow2(k) && 0 <= ly < OctreeConfig.Pow2(k) && 0 <= lz < OctreeConfig.Pow2(k)
    requires level + k <= VoxelAccessor.MAX_DEPTH
    requires IsPowerOfTwo(OctreeConfig.Pow2(k)) && !IntendedIsLeaf(PrunedTree(level, ox, oy, oz, OctreeConfig.Pow2(k), ry, chunkIndex))
    ensures k >= 1 && IsPowerOfTwo(OctreeConfig.Pow2(k - 1))
    ensures 0 <= nx < OctreeConfig.Pow2(k - 1) && 0 <= ny < OctreeConfig.Pow2(k - 1) && 0 <= nz < OctreeConfig.Pow2(k - 1)
    ensures cy + ny == oy + ly
    ensures VoxelAccessor.Descend(PrunedTree(level, ox, oy, oz, OctreeConfig.Pow2(k), ry, chunkIndex), lx, ly, lz, k, level)
         == VoxelAccessor.Descend(PrunedTree(level + 1, cx, cy, cz, OctreeConfig.Pow2(k - 1), ry, chunkIndex), nx, ny, nz, k - 1, level + 1)
  {
    Pow2IsPowerOfTwo(k);
    cx, cy, cz := PrunedOctantOf(level, ox, oy, oz, k, ry, chunkIndex, lx, ly, lz);
    var t := PrunedTree(level, ox, oy, oz, OctreeConfig.Pow2(k), ry, chunkIndex);
    var c := PrunedTree(level + 1, cx, cy, cz, OctreeConfig.Pow2(k - 1), ry, chunkIndex);
    nx, ny, nz := DescendStep(t, c, lx, ly, lz, k, level);
  }

  /** The child of an interior pruned node in the octant the accessor picks for a local point, and its corner. */
  lemma PrunedOctantOf(level: int, ox: int, oy: int, oz: int, k: nat, ry: int, chunkIndex: int, lx: int, ly: int, lz: int)
    returns (cx: int, cy: int, cz: int)
    requires IsPowerOfTwo(OctreeConfig.Pow2(k)) && !IntendedIsLeaf(PrunedTree(level, ox, oy, oz, OctreeConfig.Pow2(k), ry, chunkIndex))
    ensures k >= 1 && IsPowerOfTwo(OctreeConfig.Pow2(k - 1))
    ensures cy == oy + (if VoxelAccessor.AtLeastHalf(ly, k - 1) then OctreeConfig.Pow2(k - 1) else 0)
    ensures var t := PrunedTree(level, ox, oy, oz, OctreeConfig.Pow2(k), ry, chunkIndex);
      var i := VoxelAccessor.ChildIndex(lx, ly, lz, k - 1);
      !IsLeafNode(t) && t.children.Slots? && 0 <= i < |t.children.slots|
      && t.children.slots[i] == Child(PrunedTree(level + 1, cx, cy, cz, OctreeConfig.Pow2(k - 1), ry, chunkIndex))
  {
    var h: nat := k - 1;
    var half := OctreeConfig.Pow2(h);
    Pow2IsPowerOfTwo(k);
    Pow2IsPowerOfTwo(h);
    var i := VoxelAccessor.ChildIndex(lx, ly, lz, h);
    OctantOfChildIndex(lx, ly, lz, h, half);
    cx, cy, cz := ox + OctantOffset(i, 4, half), oy + OctantOffset(i, 2, half), oz + OctantOffset(i, 1, half);
    PrunedChild(level, ox, oy, oz, OctreeConfig.Pow2(k), ry, chunkIndex, i, half, cx, cy, cz);
  }

  /** Every pruned tree is one the octree codec reproduces. */
  lemma {:induction false} PrunedTreeWellFormed(level: int, vx: int, vy: int, vz: int, size: nat, ry: int, chunkIndex: int)
    requires IsPowerOfTwo(size)
    ensures OctreeSerializer.WellFormed(PrunedTree(level, vx, vy, vz, size, ry, chunkIndex), level)
    decreases size, 1
  {
    var t := PrunedTree(level, vx, vy, vz, size, ry, chunkIndex);
    if size > 1 && !IntendedIsLeaf(t) {
      forall i | 0 <= i < 8
        ensures t.children.slots[i].Child? && OctreeSerializer.WellFormed(t.children.slots[i].node, level + 1)
      {
        PrunedChildWellFormed(level, vx, vy, vz, size, ry, chunkIndex, i);
      }
    }
  }

  /** Child `i` of an interior pruned node is well formed one level down. */
  lemma {:induction false} PrunedChildWellFormed(level: int, vx: int, vy: int, vz: int, size: nat, ry: int, chunkIndex: int, i: int)
    requires IsPowerOfTwo(size) && size > 1 && 0 <= i < 8
    requires !IntendedIsLeaf(PrunedTree(level, vx, vy, vz, size, ry, chunkIndex))
    ensures PrunedTree(level, vx, vy, vz, size, ry, chunkIndex).children.slots[i].Child?
    ensures OctreeSerializer.WellFormed(PrunedTree(level, vx, vy, vz, size, ry, chunkIndex).children.slots[i].node, level + 1)
    decreases size, 0
  {
    var half := size / 2;
    var cx, cy, cz := vx + OctantOffset(i, 4, half), vy + OctantOffset(i, 2, half), vz + OctantOffset(i, 1, half);
    PrunedChild(level, vx, vy, vz, size, ry, chunkIndex, i, half, cx, cy, cz);
    PrunedTreeWellFormed(level + 1, cx, cy, cz, half, ry, chunkIndex);
  }

  /** Maximal compression: no interior node keeps eight uniform leaves of one material. */
  predicate Compressed(t: Node)
    decreases t
  {
    t.children.Slots? ==>
      (forall i :: 0 <= i < |t.children.slots| && t.children.slots[i].Child? ==> Compressed(t.children.slots[i].node)) &&
      !(|t.children.slots| == 8 && (forall i :: 0 <= i < 8 ==> t.children.slots[i].Child?) &&
        UniformLeaves(seq(8, i requires 0 <= i < 8 => t.children.slots[i].node)))
  }

  lemma {:induction false} PrunedTreeCompressed(level: int, vx: int, vy: int, vz: int, size: nat, ry: int, chunkIndex: int)
    requires IsPowerOfTwo(size)
    ensures Compressed(PrunedTree(level, vx, vy, vz, size, ry, chunkIndex))
    decreases size, 1
  {
    var t := PrunedTree(level, vx, vy, vz, size, ry, chunkIndex);
    if size > 1 && !IntendedIsLeaf(t) {
      PrunedNotMergeable(level, vx, vy, vz, size, ry, chunkIndex);
      forall i | 0 <= i < 8
        ensures Compressed(t.children.slots[i].node)
      {
        PrunedChildCompressed(level, vx, vy, vz, size, ry, chunkIndex, i);
      }
    }
  }

  /** Child `i` of an interior pruned node is maximally compressed. */
  lemma {:induction false} PrunedChildCompressed(level: int, vx: int, vy: int, vz: int, size: nat, ry: int, chunkIndex: int, i: int)
    requires IsPowerOfTwo(size) && size > 1 && 0 <= i < 8
    requires !IntendedIsLeaf(PrunedTree(level, vx, vy, vz, size, ry, chunkIndex))
    ensures Compressed(PrunedTree(level, vx, vy, vz, size, ry, chunkIndex).children.slots[i].node)
    decreases size, 0
  {
    var half := size / 2;
    var cx, cy, cz := vx + OctantOffset(i, 4, half), vy + OctantOffset(i, 2, half), vz + OctantOffset(i, 1, half);
    PrunedChild(level, vx, vy, vz, size, ry, chunkIndex, i, half, cx, cy, cz);
    PrunedTreeCompressed(level + 1, cx, cy, cz, half, ry, chunkIndex);
  }

  /** With the intended leaf test, a mini-chunk above the grass line is a single air leaf, one serialized byte. */
  lemma PrunedAirChunk(ry: int, chunkIndex: int)
    requires AbsoluteVoxelY(ry, chunkIndex, 0) >= 8
    ensures PrunedTree(0, 0, 0, 0, OctreeConfig.MINI_CHUNK_SIDE_VOXELS, ry, chunkIndex) == NewNode(0, OctreeConfig.VOXEL_ID_AIR)
    ensures OctreeSerializer.Serialize(PrunedTree(0, 0, 0, 0, OctreeConfig.MINI_CHUNK_SIDE_VOXELS, ry, chunkIndex)) == [0]
  {
    assert OctreeConfig.Pow2(4) == 16;
    assert UniformRows(ry, chunkIndex, 0, 16, OctreeConfig.VOXEL_ID_AIR);
    UniformBoxIsLeaf(0, 0, 0, 0, 4, ry, chunkIndex, OctreeConfig.VOXEL_ID_AIR);
  }
}
