/**
 * The sampling side of the octree stack's chunk manager
 * (app/data/ChunkManager.js).
 *
 * A manager owns two flat grids of 17³ samples, one of densities and one of
 * material ids. Sampling walks the grid points in the order `y`, then `z`,
 * then `x`, with a running index, so point `(x, y, z)` lands in slot
 * `x + 17 z + 289 y`. The mesher of this stack reads the grid as
 * `x + y R + z R²`; the two orders agree only where `y == z`.
 *
 * The implicit field is a parameter here: it is floating-point trigonometry
 * and not part of this model. Densities are kept as `real`, without the
 * rounding of `Float32Array`; material ids are truncated to a byte as the
 * `Uint8Array` does.
 */
module SamplingGrid {
  import opened JsNumbers
  import opened Wrappers
  import OctreeConfig
  import Octree

  /** `gridResolution`: one more sample than voxels per side. */
  const GRID_RESOLUTION: nat := OctreeConfig.MINI_CHUNK_SIDE_VOXELS + 1

  /** `gridResolution ** 3`, the length of both grids. */
  const GRID_SIZE: nat := GRID_RESOLUTION * GRID_RESOLUTION * GRID_RESOLUTION

  /** What the implicit field returns for a point in meters: a density and a material id. */
  type Field = ((real, real, real)) -> (real, int)

  /** The slot the sampling loops write for grid point `(x, y, z)`. */
  function SampleSlot(x: nat, y: nat, z: nat): nat
  {
    x + z * GRID_RESOLUTION + y * GRID_RESOLUTION * GRID_RESOLUTION
  }

  /** The grid point whose sample sits in slot `i`: the inverse of `SampleSlot`. */
  function SlotPoint(i: nat): (p: (nat, nat, nat))
    ensures p.0 < GRID_RESOLUTION && p.2 < GRID_RESOLUTION
    ensures i < GRID_SIZE ==> p.1 < GRID_RESOLUTION
  {
    (i % GRID_RESOLUTION, i / (GRID_RESOLUTION * GRID_RESOLUTION), (i / GRID_RESOLUTION) % GRID_RESOLUTION)
  }

  /** Every grid point has its own slot, inside the grid, and the slot gives the point back. */
  lemma SlotOfPoint(x: nat, y: nat, z: nat)
    requires x < GRID_RESOLUTION && y < GRID_RESOLUTION && z < GRID_RESOLUTION
    ensures SampleSlot(x, y, z) < GRID_SIZE
    ensures SlotPoint(SampleSlot(x, y, z)) == (x, y, z)
  {
    var i := SampleSlot(x, y, z);
    ModUnique(i, 17, z + 17 * y, x);
    ModUnique(z + 17 * y, 17, y, z);
    ModUnique(i, 289, y, x + 17 * z);
  }

  /** Every slot of the grid is the slot of exactly the point it decodes to. */
  lemma PointOfSlot(i: nat)
    requires i < GRID_SIZE
    ensures SampleSlot(SlotPoint(i).0, SlotPoint(i).1, SlotPoint(i).2) == i
  {
    var q := i / 17;
    assert i == 17 * q + i % 17;
    assert q == 17 * (q / 17) + q % 17;
    assert i / 289 == q / 17 by {
      ModUnique(i, 289, q / 17, i % 17 + 17 * (q % 17));
    }
  }

  /** Distinct grid points are written to distinct slots, so no slot is written twice in one pass. */
  lemma SlotsDistinct(x1: nat, y1: nat, z1: nat, x2: nat, y2: nat, z2: nat)
    requires x1 < GRID_RESOLUTION && y1 < GRID_RESOLUTION && z1 < GRID_RESOLUTION
    requires x2 < GRID_RESOLUTION && y2 < GRID_RESOLUTION && z2 < GRID_RESOLUTION
    ensures SampleSlot(x1, y1, z1) == SampleSlot(x2, y2, z2) <==> (x1, y1, z1) == (x2, y2, z2)
  {
    SlotOfPoint(x1, y1, z1);
    SlotOfPoint(x2, y2, z2);
  }

  /** The point in meters of grid point `(x, y, z)` for a chunk starting at `start`. */
  function WorldPoint(start: (real, real, real), p: (nat, nat, nat)): (real, real, real)
  {
    (start.0 + p.0 as real * OctreeConfig.VOXEL_SIZE_METERS,
     start.1 + p.1 as real * OctreeConfig.VOXEL_SIZE_METERS,
     start.2 + p.2 as real * OctreeConfig.VOXEL_SIZE_METERS)
  }

  /** The density a sampling pass from `start` leaves in slot `i`. */
  function SampledDensity(field: Field, start: (real, real, real), i: nat): real
  {
    field(WorldPoint(start, SlotPoint(i))).0
  }

  /** The material id, truncated to a byte, a sampling pass from `start` leaves in slot `i`. */
  function SampledMaterial(field: Field, start: (real, real, real), i: nat): byte
  {
    ToUint8(field(WorldPoint(start, SlotPoint(i))).1)
  }

  /** The meter coordinates of the first grid point of chunk `(absCX, absCY, absCZ)`. */
  function ChunkOrigin(absCX: int, absCY: int, absCZ: int): (o: (real, real, real))
    ensures o.0 == 24.0 * absCX as real && o.1 == 24.0 * absCY as real && o.2 == 24.0 * absCZ as real
  {
    var side := OctreeConfig.MiniChunkSizeMeters();
    (absCX as real * side, absCY as real * side, absCZ as real * side)
  }

  /** What `generateMesh` returns; it has no mesh to return yet. */
  datatype Mesh = Mesh(vertices: seq<real>, indices: seq<nat>)

  class ChunkManager {
    const gridResolution: nat
    const voxelSizeMeters: real
    const densityGrid: array<real>
    const materialGrid: array<byte>

    /** Both grids hold one sample per grid point. */
    predicate Valid()
      reads this
    {
      gridResolution == GRID_RESOLUTION && voxelSizeMeters == OctreeConfig.VOXEL_SIZE_METERS &&
      densityGrid.Length == GRID_SIZE && materialGrid.Length == GRID_SIZE
    }

    /** A manager with zeroed grids of 17³ samples. */
    constructor ()
      ensures Valid() && fresh(densityGrid) && fresh(materialGrid)
      ensures densityGrid.Length == 4913
      ensures forall i :: 0 <= i < GRID_SIZE ==> densityGrid[i] == 0.0 && materialGrid[i] == 0
    {
      gridResolution := GRID_RESOLUTION;
      voxelSizeMeters := OctreeConfig.VOXEL_SIZE_METERS;
      densityGrid := new real[GRID_SIZE](_ => 0.0);
      materialGrid := new byte[GRID_SIZE](_ => 0);
    }

    /** Slot `i` of both grids holds the sample of the pass from `start`. */
    ghost predicate Sampled(field: Field, start: (real, real, real), i: nat)
      reads this, densityGrid, materialGrid
      requires Valid() && i < GRID_SIZE
    {
      densityGrid[i] == SampledDensity(field, start, i) && materialGrid[i] == SampledMaterial(field, start, i)
    }

    /**
     * `#sampleImplicitField`: every grid point sampled once, in the order
     * `y`, `z`, `x`, each into the slot the running index has reached.
     */
    method SampleImplicitField(field: Field, startX: real, startY: real, startZ: real)
      requires Valid()
      modifies densityGrid, materialGrid
      ensures forall i :: 0 <= i < GRID_SIZE ==> Sampled(field, (startX, startY, startZ), i)
    {
      var index := 0;
      var y := 0;
      while y < gridResolution
        invariant 0 <= y <= GRID_RESOLUTION && index == SampleSlot(0, y, 0)
        invariant forall i :: 0 <= i < index ==> Sampled(field, (startX, startY, startZ), i)
      {
        var z := 0;
        while z < gridResolution
          invariant 0 <= z <= GRID_RESOLUTION && index == SampleSlot(0, y, z)
          decreases GRID_RESOLUTION - z
          invariant forall i :: 0 <= i < index ==> Sampled(field, (startX, startY, startZ), i)
        {
          var x := 0;
          while x < gridResolution
            invariant 0 <= x <= GRID_RESOLUTION && index == SampleSlot(x, y, z)
            decreases GRID_RESOLUTION - x
            invariant forall i :: 0 <= i < index ==> Sampled(field, (startX, startY, startZ), i)
          {
            SlotOfPoint(x, y, z);
            SamplePoint(field, startX, startY, startZ, x, y, z, index);
            index := index + 1;
            x := x + 1;
          }
          z := z + 1;
        }
        y := y + 1;
      }
    }

    /** The body of the sampling loops: grid point `(x, y, z)` sampled into slot `index`. */
    method SamplePoint(field: Field, startX: real, startY: real, startZ: real, x: nat, y: nat, z: nat, index: nat)
      requires Valid() && x < GRID_RESOLUTION && y < GRID_RESOLUTION && z < GRID_RESOLUTION
      requires index < GRID_SIZE && SlotPoint(index) == (x, y, z)
      requires forall i :: 0 <= i < index ==> Sampled(field, (startX, startY, startZ), i)
      modifies densityGrid, materialGrid
      ensures forall i :: 0 <= i <= index ==> Sampled(field, (startX, startY, startZ), i)
    {
      var data := field((startX + x as real * voxelSizeMeters, startY + y as real * voxelSizeMeters,
                         startZ + z as real * voxelSizeMeters));
      assert data == field(WorldPoint((startX, startY, startZ), SlotPoint(index)));
      densityGrid[index] := data.0;
      materialGrid[index] := ToUint8(data.1);
      assert Sampled(field, (startX, startY, startZ), index);
    }

    /**
     * `generateMesh`: samples the grid at the chunk's origin whether or not
     * an octree is given, and returns no mesh.
     */
    method GenerateMesh(field: Field, absCX: int, absCY: int, absCZ: int, chunkOctree: Option<Octree.Node>)
      returns (mesh: Option<Mesh>)
      requires Valid()
      modifies densityGrid, materialGrid
      ensures mesh == None
      ensures forall i :: 0 <= i < GRID_SIZE ==> Sampled(field, ChunkOrigin(absCX, absCY, absCZ), i)
    {
      var chunkStartMetersX := absCX as real * OctreeConfig.MiniChunkSizeMeters();
      var chunkStartMetersY := absCY as real * OctreeConfig.MiniChunkSizeMeters();
      var chunkStartMetersZ := absCZ as real * OctreeConfig.MiniChunkSizeMeters();
      if chunkOctree.Some? {
        SampleImplicitField(field, chunkStartMetersX, chunkStartMetersY, chunkStartMetersZ);
      } else {
        SampleImplicitField(field, chunkStartMetersX, chunkStartMetersY, chunkStartMetersZ);
      }
      mesh := None;
    }
  }

  /** The slot the mesher reads for grid point `(x, y, z)`: `x + y R + z R²`. */
  function MesherSlot(x: nat, y: nat, z: nat): nat
  {
    x + y * GRID_RESOLUTION + z * GRID_RESOLUTION * GRID_RESOLUTION
  }

  /**
   * Where the mesher looks for grid point `(x, y, z)` it finds the sample of
   * grid point `(x, z, y)`: the `y` and `z` axes are swapped.
   */
  lemma MesherReadsSwapped(field: Field, start: (real, real, real), x: nat, y: nat, z: nat)
    requires x < GRID_RESOLUTION && y < GRID_RESOLUTION && z < GRID_RESOLUTION
    ensures MesherSlot(x, y, z) < GRID_SIZE
    ensures SampledDensity(field, start, MesherSlot(x, y, z)) == field(WorldPoint(start, (x, z, y))).0
    ensures SampledMaterial(field, start, MesherSlot(x, y, z)) == ToUint8(field(WorldPoint(start, (x, z, y))).1)
  {
    assert MesherSlot(x, y, z) == SampleSlot(x, z, y);
    SlotOfPoint(x, z, y);
  }

  /** The two orders name the same slot exactly for the grid points with `y == z`. */
  lemma OrdersAgreeIffDiagonal(x: nat, y: nat, z: nat)
    requires x < GRID_RESOLUTION && y < GRID_RESOLUTION && z < GRID_RESOLUTION
    ensures MesherSlot(x, y, z) == SampleSlot(x, y, z) <==> y == z
  {
    if MesherSlot(x, y, z) == SampleSlot(x, y, z) {
      assert (y - z) * GRID_RESOLUTION == (y - z) * GRID_RESOLUTION * GRID_RESOLUTION;
      MulByResolution(y - z);
    }
  }

  /** `d * 17 == d * 289` only for `d == 0`. */
  lemma MulByResolution(d: int)
    requires d * GRID_RESOLUTION == d * GRID_RESOLUTION * GRID_RESOLUTION
    ensures d == 0
  {
  }
}
