/**
 * The layout constants of the dense voxel stack (src/world/config.js): a
 * region is a 4 × 4 × 4 grid of chunks, a chunk 30 voxels per side, 32
 * with the one-voxel shell the mesher reads around it.
 */
module RegionSchema {
  /** Chunks per side of a region. */
  const GRID: nat := 4
  /** Voxels per side of a chunk with its shell. */
  const CHUNK_SIZE_SHELL: nat := 32
  /** Voxels per side of a chunk without its shell. */
  const CHUNK_SIZE: nat := CHUNK_SIZE_SHELL - 2
  /** Bytes of a chunk with its shell, one per voxel. */
  const CHUNK_SHELL_BYTES: nat := CHUNK_SIZE_SHELL * CHUNK_SIZE_SHELL * CHUNK_SIZE_SHELL
  /** Bytes of a chunk without its shell. */
  const CHUNK_BYTES: nat := CHUNK_SIZE * CHUNK_SIZE * CHUNK_SIZE
  /** Voxels per side of a region. */
  const REGION_SPAN: nat := GRID * CHUNK_SIZE
  /** Chunks in a region. */
  const CHUNKS_PER_REGION: nat := GRID * GRID * GRID

  /** The values the schema derives. */
  lemma SchemaValues()
    ensures CHUNK_SIZE == 30 && REGION_SPAN == 120 && CHUNKS_PER_REGION == 64
    ensures CHUNK_BYTES == 27000 && CHUNK_SHELL_BYTES == 32768
  {
  }
}
