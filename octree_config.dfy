/**
 * The global configuration of the octree engine: base constants and the
 * values derived from them (app/core/config.js).
 */
module OctreeConfig {
  import opened Wrappers

  const VOXEL_SIZE_METERS: real := 1.5
  const MINI_CHUNK_SIDE_VOXELS: nat := 16
  const EXTRA_DETAIL_LEVELS: nat := 5
  const INDEX_RECORD_SIZE_BYTES: nat := 16
  const REGION_CHUNKS_PER_SIDE_XZ: nat := 8
  const REGION_CHUNKS_PER_SIDE_Y: nat := 2
  const VOXEL_ID_AIR: int := 0
  const VOXEL_ID_CUT: int := 255

  /** A JavaScript number that is either finite or NaN. */
  datatype Number = Finite(value: real) | NaN

  /** Two to the power `k`. */
  function Pow2(k: nat): (p: nat)
    ensures p >= 1
  {
    if k == 0 then 1 else 2 * Pow2(k - 1)
  }

  /** `Math.log2` of an exact power of two. */
  function Log2(n: nat): (k: nat)
    requires n >= 1
    decreases n
  {
    if n <= 1 then 0 else 1 + Log2(n / 2)
  }

  /** The deepest octree level: the levels of one mini-chunk plus the extra detail levels. */
  function OctreeMaxDepth(): (d: nat)
    ensures d == 9
    ensures Pow2(d - EXTRA_DETAIL_LEVELS) == MINI_CHUNK_SIDE_VOXELS
  {
    Log2(MINI_CHUNK_SIDE_VOXELS) + EXTRA_DETAIL_LEVELS
  }

  /** The side of a mini-chunk in meters. */
  function MiniChunkSizeMeters(): (m: real)
    ensures m == 24.0
  {
    MINI_CHUNK_SIDE_VOXELS as real * VOXEL_SIZE_METERS
  }

  /** The number of mini-chunks stored in one region file. */
  function RegionTotalChunks(): (n: nat)
    ensures n == 128
  {
    REGION_CHUNKS_PER_SIDE_XZ * REGION_CHUNKS_PER_SIDE_XZ * REGION_CHUNKS_PER_SIDE_Y
  }

  /** The size in bytes of a region file's index table: one record per mini-chunk. */
  function RegionHeaderBytes(): (n: nat)
    ensures n == 2048
  {
    RegionTotalChunks() * INDEX_RECORD_SIZE_BYTES
  }

  /**
   * `MINI_CHUNK_SIZE_METERS` looked up on the base configuration, where it is
   * not defined: the lookup yields `undefined`.
   */
  const BASE_MINI_CHUNK_SIZE_METERS: Option<real> := None

  /** A number multiplied by a property value that may be `undefined` (which converts to NaN). */
  function TimesProperty(factor: real, property: Option<real>): (r: Number)
    ensures r.NaN? <==> property.None?
  {
    match property
    case None => NaN
    case Some(v) => Finite(factor * v)
  }

  /** The region extent as configured: every component multiplies by the undefined base property. */
  function RegionSizeMeters(): (s: (Number, Number, Number))
    ensures s.0.NaN? && s.1.NaN? && s.2.NaN?
  {
    (TimesProperty(REGION_CHUNKS_PER_SIDE_XZ as real, BASE_MINI_CHUNK_SIZE_METERS),
     TimesProperty(REGION_CHUNKS_PER_SIDE_Y as real, BASE_MINI_CHUNK_SIZE_METERS),
     TimesProperty(REGION_CHUNKS_PER_SIDE_XZ as real, BASE_MINI_CHUNK_SIZE_METERS))
  }

  /** The region extent computed from the derived mini-chunk size instead. */
  function IntendedRegionSizeMeters(): (s: (Number, Number, Number))
    ensures s == (Finite(192.0), Finite(48.0), Finite(192.0))
  {
    (TimesProperty(REGION_CHUNKS_PER_SIDE_XZ as real, Some(MiniChunkSizeMeters())),
     TimesProperty(REGION_CHUNKS_PER_SIDE_Y as real, Some(MiniChunkSizeMeters())),
     TimesProperty(REGION_CHUNKS_PER_SIDE_XZ as real, Some(MiniChunkSizeMeters())))
  }

}
