# Endostauphath voxel storage and meshing, modelled in Dafny

Endostauphath is a browser voxel engine. It keeps its world in two storage
stacks that do not share a format. This project models the core of both,
module by module, following the JavaScript source file by file:

- **The octree stack** (`app/`, `tools/`).
  - Octree nodes (`Octree`) and their one-byte-per-node codec (`OctreeSerializer`).
  - The procedural mini-chunk generator (`VoxelGenerator`).
  - The 128-slot region container with its 16-byte little-endian index records (`OctreeRegionFile`).
  - The world-coordinate lookup that descends an octree by octant bits (`VoxelAccessor`).
  - The dual contouring skeleton (`DualContouring`) and the sampling grid that feeds it (`SamplingGrid`).
  - The configuration constants (`OctreeConfig`) and the material palette (`Palette`).
- **The older variants** in `src/data/`.
  - A two-byte-leaf codec (`LegacyOctreeSerializer`).
  - An accessor with a truncating modulo and another chunk order (`LegacyVoxelAccessor`).
  - A region file whose index table is never filled (`LegacyRegionFile`).
- **The dense "VOXL" stack** (`src/world`, `src/io`, `src/worker`, `validate_region.js`).
  - The 30³ byte chunk (`DenseChunk`).
  - The region file: an 11-byte big-endian header, 64 five-byte entries and 64 cores of 27000 bytes (`DenseRegion`).
  - The world loader's region cache and chunk lookup (`WorldLoader`).
  - The copy of a region into the 360³ voxel window (`VoxelWindow`).
  - Chunk streaming: the 32³ shell, neighbourhood search, worker task bookkeeping and region release (`ChunkStreaming`).
  - The face-culling mesher (`FaceMesher`) and the region validator (`RegionValidator`).
  - The layout constants (`RegionSchema`).

Shared modules model the JavaScript runtime the code relies on:
- `Wrappers`: `Option` and `Result`;
- `JsNumbers`: byte truncation, the truncating `%`, `Math.floor` and the rendering of integers in template literals;
- `Bytes`: `DataView` integers and `slice`;
- `JsMap` and `JsSet`: insertion-ordered `Map` and `Set`.

Code that updates objects in place is modelled as classes with `modifies` clauses. Array-filling loops work on `array`s. Each method is proved against a specification function, and the lemmas about those functions state what the source promises: round trips, bijections between coordinates and indices, what a buffer holds, and when an operation fails.

Several behaviours are modelled exactly as the code has them, because the code does it that way:
- `isLeaf()` tests for a null state, so the generator never prunes.
- `Chunk.fromCoreData` writes one voxel off on each axis, so region content does not round-trip.
- The sampler fills its grid in `x + 17z + 289y` order while the mesher reads `x + yR + zR²`.
- The mesher's edge test reuses the corner bits as edge bits.

## Model

| member | source | states |
|---|---|---|
| OctreeConfig.OctreeMaxDepth | app/core/config.js:40-42 | the deepest level is log2(16) + 5 = 9, and 2^(9-5) is the side of a mini-chunk |
| OctreeConfig.MiniChunkSizeMeters | app/core/config.js:45-46 | a mini-chunk is 16 · 1.5 = 24 m wide |
| OctreeConfig.RegionTotalChunks | app/core/config.js:49-50 | a region file holds 8 · 8 · 2 = 128 mini-chunks |
| OctreeConfig.RegionHeaderBytes | app/core/config.js:16 | the index table is 128 records of 16 bytes, 2048 bytes |
| OctreeConfig.TimesProperty | app/core/config.js:54-56 | a product with an `undefined` property is NaN, and only then |
| OctreeConfig.RegionSizeMeters | app/core/config.js:53-57 | every component of the configured region extent is NaN, since the base configuration has no mini-chunk size |
| OctreeConfig.IntendedRegionSizeMeters | app/core/config.js:52-57 | with the derived mini-chunk size the extent would be 192 m × 48 m × 192 m |
| Octree.StateCode | app/data/OctreeNode.js:10-14 | the state codes are 0, 1 and 2; 0 is EMPTY and 2 is MIXED |
| Octree.StateFor | app/data/OctreeNode.js:28-39 | air gives EMPTY, 255 gives MIXED, and every other id gives SOLID, each in both directions |
| Octree.NewNode | app/data/OctreeNode.js:21-52 | a new node keeps its level and material, has the derived state and null children, and is not a leaf |
| Octree.WithChildrenInitialized | app/data/OctreeNode.js:65-74 | a MIXED node is unchanged; any other node becomes MIXED with material 0 and 8 null children, keeping its level |
| Octree.OctreeNode.constructor | app/data/OctreeNode.js:21-52 | the new object's fields are those of `NewNode`, with no surface or sub-voxel data |
| Octree.OctreeNode.IsLeaf | app/data/OctreeNode.js:58-60 | `isLeaf()` holds exactly when the state field is null, which no constructed node has |
| Octree.OctreeNode.InitializeChildren | app/data/OctreeNode.js:65-74 | the fields become those of `WithChildrenInitialized` of the old fields; the surface and sub-voxel data are unchanged |
| Palette.GetMaterialById | app/renderer/palette.js:57-62 | an id in [0, 5) gives the entry at that index, whose id is the argument; any other id throws |
| Palette.PaletteWellFormed | app/renderer/palette.js:12-49 | five entries, each at the index of its id with a colour in [0, 1]; entry 0 is transparent, non-solid air |
| Palette.CutIdThrows | app/renderer/palette.js:61-62 | looking up 255 throws, because `VOXEL_ID_CUT` is not declared in the module |
| RegionSchema.SchemaValues | src/world/config.js:2-13 | a chunk is 30 voxels wide (32 with its shell), a region 120; 64 chunks, 27000 and 32768 bytes |
| OctreeSerializer.ReadNode | app/data/OctreeSerializer.js:29-65 | a node read from `pos` has the requested level and consumes at least one byte inside the buffer; reading past the end is an error |
| OctreeSerializer.ReadChildren | app/data/OctreeSerializer.js:49-56 | the child loop yields exactly 8 children and stays inside the buffer |
| OctreeSerializer.Deserialize | app/data/OctreeSerializer.js:17-82 | the result is always at level 0; a missing or empty buffer gives the air leaf |
| OctreeSerializer.LeafByte | app/data/OctreeSerializer.js:100-110 | a leaf id in [0, 255) is written as itself, and an id above 255 as air |
| OctreeSerializer.WriteNode | app/data/OctreeSerializer.js:94-130 | an encoding has at least one byte: 255 first for an interior node, the single material byte for a leaf |
| OctreeSerializer.WriteFailsIffBroken | app/data/OctreeSerializer.js:94-130 | `writeNode` throws exactly when some interior node reached through interior nodes has null children, a child count other than 8, or a null child; otherwise it writes one byte per node it visits (a leaf's own `children` are never visited) |
| OctreeSerializer.WriteChildrenFailIffBroken | app/data/OctreeSerializer.js:125-128 | the child loop from slot `i` throws exactly when one of the slots `i..7` is null or holds a broken subtree |
| OctreeSerializer.Serialize | app/data/OctreeSerializer.js:90-140 | the output is never empty; a broken tree gives the single air byte, any other tree one byte per visited node, starting with 255 when the root is interior |
| OctreeSerializer.WriteWellFormed | app/data/OctreeSerializer.js:94-130 | a well-formed tree serializes without error to exactly one byte per node |
| OctreeSerializer.ReadAfterWrite | app/data/OctreeSerializer.js:40-64 | reading a node's encoding anywhere in a buffer gives the node back and stops right after the encoding |
| OctreeSerializer.DeserializeIgnoresTrailingBytes | app/data/OctreeSerializer.js:67-75 | bytes after the encoding of the root do not change the decoded tree |
| OctreeSerializer.DeserializeSerialize | app/data/OctreeSerializer.js:17-140 | `deserialize(serialize(root)) == root` for every well-formed tree |
| OctreeSerializer.TruncatedReadFails | app/data/OctreeSerializer.js:29-34 | reading a proper prefix of a node's encoding runs past the end of the buffer |
| OctreeSerializer.TruncatedBufferDecodesToAir | app/data/OctreeSerializer.js:77-81 | a truncated encoding decodes to the air leaf at level 0, never to a partial tree |
| OctreeSerializer.BrokenTreeDecodesToAir | app/data/OctreeSerializer.js:118-139 | a broken tree (an interior node with null children, a count other than 8 or a null child) serializes to `[0]`, which decodes to the air leaf |
| OctreeSerializer.TruncatedExample | app/data/OctreeSerializer.js:49-56 | `[255, 3, 3, 3]` lacks its fifth child and decodes to the air leaf |
| VoxelGenerator.LocalYFromIndex | tools/VoxelGenerator.js:130-133 | the vertical layer of a chunk index is `floor(chunkIndex / 64)`, in [0, 2) for the 128 chunk indices |
| VoxelGenerator.LocalYMatchesAccessor | tools/VoxelGenerator.js:130-133 | the layer read back from the accessor's chunk index is the accessor's local chunk y |
| VoxelGenerator.MaterialAtVoxel | tools/VoxelGenerator.js:96-124 | ground exactly for absolute voxel rows up to 6, grass exactly for row 7, air exactly from row 8 |
| VoxelGenerator.OctantOffset | tools/VoxelGenerator.js:50-52 | the offset of an octant along one axis is 0 or half the side |
| VoxelGenerator.CompleteTree | tools/VoxelGenerator.js:30-90 | a side-1 box is the leaf of its voxel's material; a larger box is an interior node (id 255) with 8 children; no result is a leaf under `isLeaf()` |
| VoxelGenerator.CompleteChild | tools/VoxelGenerator.js:48-60 | child i of a generated interior node is the box offset by half on x iff bit 4, on y iff bit 2, on z iff bit 1, one level down |
| VoxelGenerator.GenerateNodeRecursive | tools/VoxelGenerator.js:30-90 | the child loop with its `firstMaterialID`/`isMixed` bookkeeping returns `CompleteTree` of its box: as written it never prunes |
| VoxelGenerator.GenerateChunk | tools/VoxelGenerator.js:16-24 | a chunk is generated from level 0, corner (0,0,0), side 16 |
| VoxelGenerator.OctantOfChildIndex | tools/VoxelGenerator.js:50-52 | the accessor's child index selects the octant the generator offsets by the same bits |
| VoxelGenerator.CompleteTreeLookup | tools/VoxelGenerator.js:30-90 | looking up any voxel of a generated box descends to its voxel leaf and reports its material |
| VoxelGenerator.GeneratedChunkLookup | tools/VoxelGenerator.js:16-24 | every voxel of a generated chunk is found at level 4 with the material of its absolute row |
| VoxelGenerator.GeneratedWorldLookup | tools/VoxelGenerator.js:96-124 | end to end, the accessor finds ground at world rows up to 6, grass at row 7 and air above, for any world point |
| VoxelGenerator.RowOfCoords | tools/VoxelGenerator.js:103-106 | the generator's absolute row of the accessor's voxel is `floor(y / 1.5)` |
| VoxelGenerator.CompleteTreeWellFormed | tools/VoxelGenerator.js:84-89 | every generated tree has levels equal to depth, 8 children under id 255 and leaf ids below 255 |
| VoxelGenerator.GeneratedChunkRoundTrip | tools/VoxelGenerator.js:16-24 | a generated chunk survives `deserialize(serialize(...))` unchanged |
| VoxelGenerator.CompleteTreeNodeCount | tools/VoxelGenerator.js:42-89 | a generated box of side 2^k has all nodes of the complete octree of depth k |
| VoxelGenerator.AirChunkIsNotPruned | tools/VoxelGenerator.js:63-82 | a chunk that is air in every voxel still yields an interior root over 4681 nodes and serializes to 4681 bytes |
| VoxelGenerator.PrunedTree | tools/VoxelGenerator.js:63-82 | with a leaf test on EMPTY/SOLID states: a result is a leaf iff its id is not 255; leaves have material 0..2; interior nodes have 8 children |
| VoxelGenerator.PrunedNotMergeable | tools/VoxelGenerator.js:63-82 | the children of an interior pruned node are not 8 leaves of one material |
| VoxelGenerator.PrunedLeafIsUniform | tools/VoxelGenerator.js:63-82 | a pruned leaf stands for a box whose every voxel has the leaf's material |
| VoxelGenerator.UniformBoxIsLeaf | tools/VoxelGenerator.js:63-82 | a box whose voxels share one material prunes to a single leaf of it |
| VoxelGenerator.PrunedTreeLookup | tools/VoxelGenerator.js:63-82 | with pruning, every lookup still finds the material of the voxel's row, at most k levels down |
| VoxelGenerator.PrunedTreeWellFormed | tools/VoxelGenerator.js:63-89 | every pruned tree is one the octree codec reproduces |
| VoxelGenerator.PrunedTreeCompressed | tools/VoxelGenerator.js:63-82 | no interior node of a pruned tree has 8 children that would merge |
| VoxelGenerator.PrunedAirChunk | tools/VoxelGenerator.js:63-82 | with pruning, a chunk above the grass line is one air leaf, serialized as the single byte 0 |
| VoxelAccessor.LocalModulo | app/data/VoxelAccessor.js:30-33 | the truncating remainder shifted up when negative lies in [0, divisor) and is the floor remainder of the dividend |
| VoxelAccessor.FloorDivIsEuclidean | app/data/VoxelAccessor.js:82-84 | `Math.floor(a / b)` on integers is the floor quotient that pairs with the floor remainder |
| VoxelAccessor.ChunkIndexBijective | app/data/VoxelAccessor.js:92-95 | `localCX + 8 localCZ + 64 localCY` lies in [0, 128) and each local coordinate is recovered from it |
| VoxelAccessor.ChunkAndVoxelCoords | app/data/VoxelAccessor.js:75-107 | chunk index in [0, 128) and local voxels in [0, 16) for any sign; region and local chunk recompose the absolute chunk, which with the local voxel recomposes the absolute voxel |
| VoxelAccessor.VoxelInChunk | app/data/VoxelAccessor.js:98-104 | the absolute voxel's floor quotient by 16 is the absolute chunk, so local voxel = absolute voxel − 16 · absolute chunk |
| VoxelAccessor.NegativeCoordinateExample | app/data/VoxelAccessor.js:75-107 | x = −0.1 m lies in region −1, local chunk 7, local voxel 15 |
| VoxelAccessor.RemainderByHalf | app/data/VoxelAccessor.js:146-148 | `local % half` of a coordinate below the side subtracts the half exactly when the coordinate is in the upper half |
| VoxelAccessor.ChildIndex | app/data/VoxelAccessor.js:131-134 | the child index `4·[x ≥ h] + 2·[y ≥ h] + [z ≥ h]` lies in [0, 8) |
| VoxelAccessor.InfoOf | app/data/VoxelAccessor.js:154-161 | the reported id is the node's material, found is true, and density is 1 iff the id is not air |
| VoxelAccessor.Descend | app/data/VoxelAccessor.js:117-162 | the lookup always reports found, stops at a level in [start, 9], and has density 1 iff its id is not air |
| VoxelAccessor.TraverseOctree | app/data/VoxelAccessor.js:117-162 | the while loop returns `Descend` of the root: one child per level, a null child giving air at the current level |
| VoxelAccessor.GetVoxelInfo | app/data/VoxelAccessor.js:43-65 | a missing mini-chunk gives air at level 0 with found false; otherwise the traversal of its root from the local voxel |
| LegacyVoxelAccessor.LegacyChunkIndexBijective | src/data/VoxelAccessor.js:80-84 | `localCX + 8 localCY + 16 localCZ` lies in [0, 128) and each local coordinate is recovered from it |
| LegacyVoxelAccessor.ChunkRemainder | src/data/VoxelAccessor.js:87-89 | `x % 24` keeps the sign of x: in [0, 24) for x ≥ 0 and in (−24, 0] below |
| LegacyVoxelAccessor.LegacyVoxelCoord | src/data/VoxelAccessor.js:87-89 | a local voxel is in [0, 16) for x ≥ 0 (the floor-based value) and in [−16, 0] for x < 0 |
| LegacyVoxelAccessor.AbsChunk | src/data/VoxelAccessor.js:66-68 | the absolute chunk has the sign of the coordinate |
| LegacyVoxelAccessor.LegacyLocalChunk | src/data/VoxelAccessor.js:76-78 | the truncating remainder of the absolute chunk lies strictly between −perSide and perSide, and is the floor remainder for x ≥ 0 |
| LegacyVoxelAccessor.LegacyChunkAndVoxelCoords | src/data/VoxelAccessor.js:64-92 | local voxels lie in [−16, 16), and are not positive for a negative coordinate |
| LegacyVoxelAccessor.AgreesWithOctreeAccessor | src/data/VoxelAccessor.js:64-92 | for non-negative coordinates the older accessor finds the same region and voxel as the octree accessor, and the same mini-chunk under the other index order |
| LegacyVoxelAccessor.LegacyRemainder | src/data/VoxelAccessor.js:133-135 | `%=` by the half agrees with the octree accessor for non-negative coordinates and is in (−half, 0] below |
| LegacyVoxelAccessor.LegacyDescend | src/data/VoxelAccessor.js:106-154 | a lookup that does not throw reports found, stops at a level in [start, 9], and has density 1 iff its id is not air |
| LegacyVoxelAccessor.TraverseOctree | src/data/VoxelAccessor.js:106-154 | the while loop from side `16 >> level` returns `LegacyDescend` of the root, throwing on a missing child |
| LegacyVoxelAccessor.GetVoxelInfo | src/data/VoxelAccessor.js:38-54 | a missing root gives air at level 0 with found false; otherwise the traversal of the root |
| LegacyVoxelAccessor.AgreesOnWellFormedTrees | src/data/VoxelAccessor.js:118-139 | on a tree with 8 children under every interior node the descent never throws and finds what the octree accessor finds |
| LegacyVoxelAccessor.IndexOrdersDiffer | src/data/VoxelAccessor.js:81-84 | the upper mini-chunk of the first column is index 64 in the octree accessor and 8 in this one |
| LegacyVoxelAccessor.NegativeCoordinateExample | src/data/VoxelAccessor.js:76-89 | at x = −0.1 m the local chunk and local voxel are −1, so the chunk index is negative |
| LegacyVoxelAccessor.MissingChildExample | src/data/VoxelAccessor.js:130 | a root with null children makes this lookup throw where the octree accessor returns air |
| LegacyOctreeSerializer.ReadNode | src/data/OctreeSerializer.js:27-55 | state 0 or 1 is a leaf that consumes two bytes and carries the second as material; any other state gives a MIXED node with material 0 and 8 present children; the read fails exactly when a needed byte is missing |
| LegacyOctreeSerializer.ReadChildren | src/data/OctreeSerializer.js:50-52 | the child loop fills all 8 slots and stays inside the buffer |
| LegacyOctreeSerializer.Deserialize | src/data/OctreeSerializer.js:16-58 | a missing or empty buffer gives the air leaf; a decoded root is at level 0 |
| LegacyOctreeSerializer.StateByte | src/data/OctreeSerializer.js:77 | the state byte is the state's code (0, 1 or 2) |
| LegacyOctreeSerializer.WriteNode | src/data/OctreeSerializer.js:74-103 | every node starts with its state byte; a leaf is exactly its state and material bytes; an interior node fails only when its children array is null |
| LegacyOctreeSerializer.WriteWellFormed | src/data/OctreeSerializer.js:74-103 | a tree with levels equal to depth, fresh EMPTY/SOLID leaves and MIXED interior nodes with 8 children always serializes |
| LegacyOctreeSerializer.FilledPrefix | src/data/OctreeSerializer.js:45-52 | the children array after i iterations of the read loop: the first i slots read, the rest still null |
| LegacyOctreeSerializer.ReadAfterWrite | src/data/OctreeSerializer.js:27-55 | reading a node's encoding anywhere in a buffer gives the node back and stops right after it |
| LegacyOctreeSerializer.DeserializeIgnoresTrailingBytes | src/data/OctreeSerializer.js:57 | bytes after the root's encoding are ignored |
| LegacyOctreeSerializer.DeserializeSerialize | src/data/OctreeSerializer.js:16-110 | `deserialize(serialize(root)) == root` for every well-formed tree, under the assumed leaf test |
| LegacyOctreeSerializer.TruncatedReadThrows | src/data/OctreeSerializer.js:34-40 | reading a proper prefix of a node's encoding throws |
| LegacyOctreeSerializer.TruncatedBufferThrows | src/data/OctreeSerializer.js:16-58 | a truncated encoding makes `deserialize` throw |
| LegacyOctreeSerializer.NullChildExample | src/data/OctreeSerializer.js:94-102 | a root whose first child is null writes 15 bytes, and reading them back runs out of input |
| LegacyRegionFile.RecordAt | src/data/RegionFile.js:79 | `indexTable[chunkIndex]`: the slot for an index inside the table, and no record for any other index |
| LegacyRegionFile.ChunkData | src/data/RegionFile.js:76-87 | data is returned exactly when the container is loaded, has raw data and holds a record for the index; it is `rawData.slice(offset, offset + size)` |
| LegacyRegionFile.RegionFile.constructor | src/data/RegionFile.js:15-34 | 128 null records, no raw data, not loaded, no buffers, not dirty, and the id `R_name_rx_ry_rz` |
| LegacyRegionFile.RegionFile.LoadFile | src/data/RegionFile.js:57-69 | raw data is stored and the container is loaded; an empty or missing buffer nulls every record, a non-empty one leaves the table as it was (parsing does nothing) |
| LegacyRegionFile.RegionFile.GetChunkData | src/data/RegionFile.js:76-87 | returns `ChunkData` of the container's fields |
| LegacyRegionFile.EmptyTableYieldsNothing | src/data/RegionFile.js:94-99 | with a table that is never populated, every `getChunkData` returns null |
| OctreeRegionFile.NoRecords | app/data/RegionFile.js:25 | the fresh table has 128 slots, all null |
| OctreeRegionFile.RecordBytes | app/data/RegionFile.js:120-144 | every record, present or absent, takes 16 bytes |
| OctreeRegionFile.HeaderBytes | app/data/RegionFile.js:103-145 | the index table is 16 bytes per record |
| OctreeRegionFile.Relocated | app/data/RegionFile.js:115-138 | saving keeps the number of records |
| OctreeRegionFile.Stored | app/data/RegionFile.js:155 | the buffer under an index, or nothing |
| OctreeRegionFile.FileBytes | app/data/RegionFile.js:102-168 | the file is 2048 bytes plus the total buffer length; it starts with the table of relocated records, followed by the buffers of indices 0..127 back to back |
| JsNumbers.BigIntToNumber | app/data/RegionFile.js:191 | `Number(timestampBigInt)` keeps every integer of magnitude up to 2^53 and otherwise moves it by at most half the spacing of doubles around it |
| JsNumbers.FirstInexactBigInt | app/data/RegionFile.js:191 | the timestamp field 2^53 + 1 loads as 2^53 |
| OctreeRegionFile.ParsedRecord | app/data/RegionFile.js:185-198 | a record is kept exactly when its offset and size fields are both positive; its timestamp is the signed 64-bit field converted to the nearest double |
| OctreeRegionFile.ParsedTable | app/data/RegionFile.js:183-199 | parsing keeps the table's 128 slots |
| OctreeRegionFile.RegionFile.constructor | app/data/RegionFile.js:15-34 | 128 null records, no raw data, not loaded, no buffers, not dirty, and the id `R_name_rx_ry_rz` |
| OctreeRegionFile.RegionFile.LoadFile | app/data/RegionFile.js:57-69 | a missing or empty buffer nulls every record; otherwise the table is parsed and, when the whole table fits, the buffers extracted; a shorter file throws before `isLoaded` is set |
| OctreeRegionFile.RegionFile.GetChunkData | app/data/RegionFile.js:76-79 | the stored buffer of the index, or null, whatever `isLoaded` is |
| OctreeRegionFile.RegionFile.UpdateChunkData | app/data/RegionFile.js:87-95 | the buffer is stored, the record becomes (0, newSize, now), the container is dirty; nothing else changes |
| OctreeRegionFile.RegionFile.SerializeFullFile | app/data/RegionFile.js:102-169 | returns `FileBytes` of the old table and buffers, overwrites the offsets with the relocated ones, keeps the output as raw data and clears `isDirty` |
| OctreeRegionFile.RegionFile.ParseIndexTable | app/data/RegionFile.js:176-211 | records are read over the old table; the buffers are extracted only when all 128 records fit in the raw data |
| OctreeRegionFile.TotalChunkSize | app/data/RegionFile.js:104 | the reduce over the map's values is the total buffer length |
| OctreeRegionFile.Serialize | app/data/RegionFile.js:102-169 | the file buffer is `FileBytes` and the table is relocated from offset 2048 |
| OctreeRegionFile.WriteIndexTable | app/data/RegionFile.js:111-145 | the header loop writes the relocated table into the zero-filled buffer and leaves the rest zero |
| OctreeRegionFile.WriteChunkData | app/data/RegionFile.js:154-162 | the copy loop places the buffers of indices 0..127 back to back after the table |
| OctreeRegionFile.ReadIndexRecords | app/data/RegionFile.js:183-199 | the record loop yields `ParsedTable`, and fails exactly when the file is shorter than 2048 bytes |
| OctreeRegionFile.ExtractChunkBuffers | app/data/RegionFile.js:202-210 | the slice loop stores the slice of each present record under its index, keeping keys distinct |
| OctreeRegionFile.RecordReadBack | app/data/RegionFile.js:126-198 | parsing the 16 bytes written for a record whose fields fit gives the record back; zeros parse as no record |
| OctreeRegionFile.HeaderReadBack | app/data/RegionFile.js:183-199 | a buffer that starts with a written table of fitting records parses back to that table |
| OctreeRegionFile.OffsetsFollowPayload | app/data/RegionFile.js:115-138 | with a table that agrees with the buffers, the running offset before index k is 2048 plus the buffers before k |
| OctreeRegionFile.ExtractIntoGet | app/data/RegionFile.js:202-210 | after extraction each index holds the slice of its present record, or what was stored before |
| OctreeRegionFile.SaveThenLoad | app/data/RegionFile.js:102-211 | saving then loading gives back the relocated table and, under every present index, the same buffer, when records agree with buffers, buffers are non-empty, offsets and sizes fit 32 bits and timestamps are integers a double holds exactly (every `Date.now()` is) |
| OctreeRegionFile.RelocatedKeepsRecords | app/data/RegionFile.js:120-122 | saving changes only offsets: the same records stay present with their sizes and timestamps |
| OctreeRegionFile.FirstRecordOffset | app/data/RegionFile.js:115-122 | the first present record gets offset 2048 |
| OctreeRegionFile.NextRecordOffset | app/data/RegionFile.js:122-138 | each later present record gets the previous one's offset plus its size |
| OctreeRegionFile.NextOffsetSkipsAbsent | app/data/RegionFile.js:122-138 | absent records between two present ones leave the running offset unchanged |
| OctreeRegionFile.UpdateKeepsConsistent | app/data/RegionFile.js:87-95 | `updateChunkData` with a size equal to the buffer's length keeps records and buffers in agreement |
| SamplingGrid.SlotPoint | app/data/ChunkManager.js:91-112 | the grid point a running-index slot belongs to lies inside the 17-point grid |
| SamplingGrid.SlotOfPoint | app/data/ChunkManager.js:94-112 | the running index reaches point `(x, y, z)` at a slot inside the grid, and that slot maps back to the point |
| SamplingGrid.PointOfSlot | app/data/ChunkManager.js:94-112 | every slot of the grid is reached by exactly the point it maps to |
| SamplingGrid.SlotsDistinct | app/data/ChunkManager.js:94-112 | two grid points share a slot exactly when they are the same point |
| SamplingGrid.ChunkOrigin | app/data/ChunkManager.js:43-45 | a chunk starts at 24 m times its absolute index on each axis |
| SamplingGrid.ChunkManager.constructor | app/data/ChunkManager.js:19-30 | two fresh grids of 17³ = 4913 zero samples, resolution 17, voxel size 1.5 m |
| SamplingGrid.ChunkManager.SampleImplicitField | app/data/ChunkManager.js:90-116 | after the pass every slot holds the field's density and byte-truncated material at its grid point, 1.5 m apart from the start |
| SamplingGrid.ChunkManager.SamplePoint | app/data/ChunkManager.js:98-112 | one inner step stores the sample of its point at the running index and keeps the slots before it |
| SamplingGrid.ChunkManager.GenerateMesh | app/data/ChunkManager.js:40-83 | with or without an octree the grid is sampled at the chunk's origin, and no mesh is returned |
| SamplingGrid.MesherReadsSwapped | app/meshing/DualContourning.js:156-187 | where the mesher reads point `(x, y, z)` it finds the sample of point `(x, z, y)` |
| SamplingGrid.OrdersAgreeIffDiagonal | app/meshing/DualContourning.js:156 | the mesher's order and the sampling order name the same slot exactly when `y == z` |
| DualContouring.CornerIndex | app/meshing/DualContourning.js:153-156 | the grid index of each of a cell's eight corners lies inside both grids |
| DualContouring.Corners | app/meshing/DualContourning.js:152-162 | eight flags, flag `v` set exactly when corner `v` has positive density |
| DualContouring.CellCaseBits | app/meshing/DualContourning.js:148-164 | bit `i` of the cell case is set exactly when `i < 8` and corner `i` is solid, so the case is below 256 |
| DualContouring.MixedCorners | app/meshing/DualContourning.js:100 | a cell with one solid and one empty corner is not skipped |
| DualContouring.MixedIffStraddles | app/meshing/DualContourning.js:100 | a cell is skipped (case 0 or 255) exactly when its corners are all empty or all solid |
| DualContouring.EdgeEnds | app/meshing/DualContourning.js:181-187 | the grid indices of an edge's two corners lie inside both grids |
| DualContouring.EdgeMaterials | app/meshing/DualContourning.js:177-211 | the edge scan yields at most one material per edge looked at |
| DualContouring.CaseSelectsEdges | app/meshing/DualContourning.js:179 | the test `cellCase & (1 << i)` selects edge `i` exactly when `i < 8` and corner `i` is solid, not when the edge crosses the surface |
| DualContouring.HighEdgesUnused | app/meshing/DualContourning.js:177-179 | the four vertical edges 8..11 are never selected, since the case has no bit above 7 (edge list at lines 37-41) |
| DualContouring.NoEdgeNoCase | app/meshing/DualContourning.js:177-179 | a case that selects no edge is 0 |
| DualContouring.MixedCellHasEdge | app/meshing/DualContourning.js:177-179 | every cell that gets a vertex selects at least one edge (the case test at line 100) |
| DualContouring.FirstIndex | app/meshing/DualContourning.js:211-229 | the first position of a material in a list, or the length when absent |
| DualContouring.TallyCounts | app/meshing/DualContourning.js:174-211 | the `materialCounts` map holds each material seen with the number of times it was seen, and nothing else |
| DualContouring.TallyOrder | app/meshing/DualContourning.js:211-229 | the map's entries follow the order in which each material was first seen |
| DualContouring.VoteLeader | app/meshing/DualContourning.js:227-234 | the scan ends on the first entry with the largest positive count, or on air with 0 when none is positive |
| DualContouring.VoteIsMostFrequent | app/meshing/DualContourning.js:174-234 | the predominant material is the most frequent edge material, ties going to the one seen first; air when no edge was selected |
| DualContouring.GetCellCase | app/meshing/DualContourning.js:148-164 | the loop over the eight corners builds the cell case |
| DualContouring.CountEdge | app/meshing/DualContourning.js:179-211 | one pass of the edge loop adds the edge's material to the tally exactly when the case selects it |
| DualContouring.CalculateCrossoverPoint | app/meshing/DualContourning.js:170-240 | the material returned is the vote over the selected edges, and the normal is the placeholder (0.5, 0.5, 0.5) |
| DualContouring.VoxelIndex | app/meshing/DualContourning.js:94 | a cell's slot in `vertexIndexMap` lies inside the 16³ map |
| DualContouring.VoxelIndexInjective | app/meshing/DualContourning.js:94 | two cells share a slot exactly when they are the same cell |
| DualContouring.MixedCellsInLoopOrder | app/meshing/DualContourning.js:90-130 | the cells that get a vertex are exactly the mixed ones, in the order the loops visit them |
| DualContouring.ColorOf | app/meshing/DualContourning.js:118-123 | four color components, black opaque when the material is unknown |
| DualContouring.Placeholders | app/meshing/DualContourning.js:237 | three components per vertex, each 0.5 |
| DualContouring.PositionAt | app/meshing/DualContourning.js:114 | vertex `j`'s three coordinates are the position of the `j`-th emitted cell |
| DualContouring.ColorAt | app/meshing/DualContourning.js:118-123 | vertex `j`'s four color components are those of its material |
| DualContouring.VertexMaterialAt | app/meshing/DualContourning.js:108-118 | vertex `j`'s material is the vote of the `j`-th emitted cell |
| DualContouring.Slots | app/meshing/DualContourning.js:86-127 | the index map covers all 16³ cells |
| DualContouring.SlotsMeaning | app/meshing/DualContourning.js:86-127 | each emitted cell's slot holds its vertex number and every other slot holds -1 |
| DualContouring.MixedSlots | app/meshing/DualContourning.js:86-127 | after the pass the slot of the `j`-th mixed cell holds `j` and the slot of every skipped cell holds -1 |
| DualContouring.VisitCell | app/meshing/DualContourning.js:94-127 | one innermost iteration emits a vertex exactly for a mixed cell and records its index |
| DualContouring.VisitRow | app/meshing/DualContourning.js:92-128 | the `x` loop emits the mixed cells of a row in order |
| DualContouring.VisitLayer | app/meshing/DualContourning.js:91-129 | the `z` loop emits the mixed cells of a layer in order |
| DualContouring.NewVertexIndexMap | app/meshing/DualContourning.js:86 | a fresh map of 16³ slots, all -1 |
| DualContouring.PlaceVertices | app/meshing/DualContourning.js:86-130 | the vertex pass emits every mixed cell once, in loop order, with its attributes, and records each vertex index |
| DualContouring.ExtractMesh | app/meshing/DualContourning.js:75-138 | the mesh has one vertex per mixed cell in loop order, placeholder normals, the colors of the voted materials and no index, since `#triangulateFaces` (lines 246-291) pushes none |
| DenseChunk.SizesAgree | src/world/chunk.js:5-6 | a chunk is 30 voxels a side, 27000 voxels, the schema's chunk size and byte count |
| DenseChunk.Coords | src/world/chunk.js:29-31 | the voxel of an array index lies in the chunk's `x` and `y` range, and in its `z` range for an index below 27000 |
| DenseChunk.CoordsOfIndex | src/world/chunk.js:29-33 | `index` sends every voxel of the chunk into `[0, 27000)`, and the index gives the voxel back |
| DenseChunk.IndexOfCoords | src/world/chunk.js:29-33 | every index below 27000 is the index of exactly one in-bounds voxel |
| DenseChunk.IndexInRange | src/world/chunk.js:29-33 | an in-bounds voxel's index lies in the array |
| DenseChunk.IndexInjective | src/world/chunk.js:29-31 | two in-bounds voxels share an index only when they are the same voxel |
| DenseChunk.Stored | src/world/chunk.js:41-44 | `set` keeps 27000 voxels |
| DenseChunk.AtStored | src/world/chunk.js:37-44 | after `set`, `get` reads the value's low byte at that voxel and the old value everywhere else; out of bounds, nothing changes and `get` reads 0 |
| DenseChunk.Filled | src/world/chunk.js:45 | `fill` gives 27000 voxels |
| DenseChunk.Hist | src/world/chunk.js:125-129 | the histogram has 256 entries |
| DenseChunk.HistStep | src/world/chunk.js:127 | counting one more voxel increments exactly its value's entry |
| DenseChunk.SumBump | src/world/chunk.js:127 | incrementing one entry raises the total by one |
| DenseChunk.HistSum | src/world/chunk.js:125-129 | the histogram's entries add up to the number of voxels |
| DenseChunk.Mapped | src/world/chunk.js:119-124 | `mapInPlace` keeps 27000 voxels |
| DenseChunk.MappedAt | src/world/chunk.js:119-124 | each voxel becomes the low byte of the callback on its old value, its coordinates and its index |
| DenseChunk.ShiftedUpTo | src/world/chunk.js:160-167 | the partial copy of `fromCoreData` keeps 27000 voxels |
| DenseChunk.FromCore | src/world/chunk.js:157-169 | `fromCoreData` gives 27000 voxels |
| DenseChunk.ShiftStep | src/world/chunk.js:164 | one loop step stores core element `k` at voxel `(cx + 1, cy + 1, cz + 1)` |
| DenseChunk.FromCoreShifts | src/world/chunk.js:157-169 | voxel `(x, y, z)` holds core element `(x - 1, y - 1, z - 1)` when `x, y, z >= 1`, and 0 on the three 0-planes |
| DenseChunk.FromCoreDropsLastPlanes | src/world/chunk.js:161-166 | core elements on the planes at 29 land out of bounds, so changing them changes nothing |
| DenseChunk.CoreDataDoesNotRoundTrip | src/world/chunk.js:142-169 | a core with one voxel at 0 comes back with that voxel at `(1, 1, 1)`: `fromCoreData` does not invert `toCoreData` |
| DenseChunk.LoneVoxelMoves | src/world/chunk.js:157-169 | the lone voxel moves to `(1, 1, 1)` and every other voxel is 0 |
| DenseChunk.LoneCoreElement | src/world/chunk.js:164 | only element 0 of that core is non-zero |
| DenseChunk.ParseSide | src/world/chunk.js:50-57 | a recognised name is the name of its side |
| DenseChunk.ParseSideName | src/world/chunk.js:50-57 | each of the six side names is recognised as its side |
| DenseChunk.FaceVoxelOnFace | src/world/chunk.js:51-56 | step `(a, b)` of a side's loops visits a voxel of that face, held by entry `30 a + b` |
| DenseChunk.FaceSlotOnFace | src/world/chunk.js:51-56 | every voxel of a face is held by exactly one entry, whose step visits it |
| DenseChunk.Face | src/world/chunk.js:48-60 | a face has 900 entries |
| DenseChunk.FaceAt | src/world/chunk.js:48-60 | a face entry is the voxel of the face it stands for |
| DenseChunk.PartialFace | src/world/chunk.js:68-73 | the partial writes of `setFace` keep 27000 voxels |
| DenseChunk.WithFace | src/world/chunk.js:61-76 | `setFace` keeps 27000 voxels |
| DenseChunk.FaceRoundTrip | src/world/chunk.js:48-76 | `getFace` after `setFace` on the same side gives back the data written |
| DenseChunk.SetOwnFace | src/world/chunk.js:48-76 | writing back a side's own face changes nothing |
| DenseChunk.FillRange | src/world/chunk.js:87 | `TypedArray.fill` keeps the length |
| DenseChunk.Clamp | src/world/chunk.js:81-82 | the clamped corners are at least 0 and the far corner at most 30 |
| DenseChunk.FillRows | src/world/chunk.js:83-89 | filling rows keeps the length |
| DenseChunk.FillBoxResult | src/world/chunk.js:79-90 | `fillBox` keeps the length |
| DenseChunk.BoxFilled | src/world/chunk.js:79-90 | the intended result keeps 27000 voxels |
| DenseChunk.FillRowsAt | src/world/chunk.js:83-89 | a voxel is set exactly when one of the visited rows' fills covers it |
| DenseChunk.InSomeRowAppend | src/world/chunk.js:83-89 | coverage by two lists of rows is coverage by either |
| DenseChunk.RowCoversExactly | src/world/chunk.js:86-87 | the fill of row `(y, z)` with `0 <= x0`, `x1 <= 30` covers exactly the voxels of that row between `x0` and `x1` |
| DenseChunk.LayerRowsCover | src/world/chunk.js:85-88 | the rows of one layer cover exactly the voxels of the layer between the bounds |
| DenseChunk.BoxRowsCover | src/world/chunk.js:83-89 | the rows of the box cover exactly the voxels of the box |
| DenseChunk.FillBoxExact | src/world/chunk.js:79-90 | when `x1 >= 0`, `fillBox` sets exactly the voxels of the clamped box to the value's low byte |
| DenseChunk.FillBoxNegativeEnd | src/world/chunk.js:79-90 | `fillBox(0, 0, 0, -1, 1, 1, v)` names an empty box, yet sets every voxel but the last |
| DenseChunk.EmptyBoxKeeps | src/world/chunk.js:83-89 | a box with no voxel between its `x` bounds changes nothing |
| DenseChunk.OneRowBox | src/world/chunk.js:83-89 | a one-row box at the corner is a single `fill` of row 0 |
| DenseChunk.BlitUpTo | src/world/chunk.js:96-107 | the partial blit keeps 27000 voxels |
| DenseChunk.Blitted | src/world/chunk.js:91-108 | `blitFrom` keeps 27000 voxels |
| DenseChunk.BlittedAt | src/world/chunk.js:91-108 | each voxel after `blitFrom` is the source row entry of its step when that step writes, and its old value otherwise |
| DenseChunk.BlitCopiesBox | src/world/chunk.js:91-108 | with the source box's `x` range inside the chunk, each destination voxel of the box inside the chunk receives the source voxel at the same offset |
| DenseChunk.ExactSourceRow | src/world/chunk.js:100 | a source row inside the chunk is the `w` voxels from `(x, sy, sz)` |
| DenseChunk.BlitKeepsOutside | src/world/chunk.js:91-108 | a voxel outside the destination box keeps its value |
| DenseChunk.BlitReadsPreviousRow | src/world/chunk.js:100-104 | with `srcBox.x == -1` the first destination column receives the last voxel of the previous source row, since the source `x` is never clipped |
| DenseChunk.Chunk.Init | src/world/chunk.js:8-26 | the voxels array is kept and both corners truncated to 32-bit integers |
| DenseChunk.Chunk.New | src/world/chunk.js:8-26 | a typed array of 27000 is kept as is, a number array of 27000 copied byte by byte, no array gives all air; another value or a wrong length throws its error |
| DenseChunk.Chunk.Get | src/world/chunk.js:37-40 | the voxel at the coordinates, or 0 outside the chunk |
| DenseChunk.Chunk.Set | src/world/chunk.js:41-44 | the new contents are `Stored` of the old |
| DenseChunk.Chunk.Fill | src/world/chunk.js:45 | every voxel holds the value's low byte |
| DenseChunk.Chunk.GetFace | src/world/chunk.js:48-60 | an unknown side throws; otherwise the face of the current contents |
| DenseChunk.Chunk.SetFace | src/world/chunk.js:61-76 | data that is missing or not 900 long throws first, then an unknown side throws, both leaving the voxels as they were; otherwise the contents are `WithFace` of the old |
| DenseChunk.Chunk.FillBetween | src/world/chunk.js:87 | `fill(v, start, end)` with relative indices |
| DenseChunk.Chunk.FillBox | src/world/chunk.js:79-90 | the contents are `FillBoxResult` of the old, as written |
| DenseChunk.Chunk.FillLayer | src/world/chunk.js:85-88 | the `y` loop fills the rows of one layer |
| DenseChunk.Chunk.FillBoxClamped | src/world/chunk.js:79-90 | with `x1` also clamped at 0, exactly the voxels of the clamped box hold the value's low byte |
| DenseChunk.Chunk.BlitFrom | src/world/chunk.js:91-108 | the contents are `Blitted` of the old, with the origin truncated to 32 bits, for a source chunk other than this one |
| DenseChunk.Chunk.BlitLayer | src/world/chunk.js:98-106 | the `y` loop of one source layer |
| DenseChunk.Chunk.BlitRow | src/world/chunk.js:100-105 | the `x` loop of one source row |
| DenseChunk.Chunk.Histogram | src/world/chunk.js:125-129 | entry `v` is the number of voxels holding `v` |
| DenseChunk.Chunk.MapInPlace | src/world/chunk.js:119-124 | the contents are `Mapped` of the old |
| DenseChunk.Chunk.ToCoreData | src/world/chunk.js:142-155 | the core data are the voxels in index order |
| DenseChunk.Chunk.FromCoreData | src/world/chunk.js:157-169 | a fresh chunk whose voxels are `FromCore` of the data, origin truncated to 32 bits, region corner 0 |
| DenseRegion.LayoutValues | src/world/region.js:19-29 | 64 chunks in a 4³ grid, 5-byte entries after an 11-byte header, data from byte 331, a file of 331 + 64 · 27000 bytes |
| DenseRegion.UnlinearOfLinear | src/world/region.js:35-42 | `linearIndex` sends every grid cell into `[0, 64)` and `unlinearIndex` gives the cell back |
| DenseRegion.LinearOfUnlinear | src/world/region.js:35-42 | every slot below 64 is the linear index of the grid cell `unlinearIndex` gives |
| DenseRegion.LinearIndexInjective | src/world/region.js:35 | two grid cells share a slot only when they are the same cell |
| DenseRegion.HeaderFields | src/world/region.js:69-78 | the header holds the magic `VOXL` big-endian, version 1, the chunk size 30 three times and the count 64 in 24 bits |
| DenseRegion.Entry | src/world/region.js:84-89 | an index entry is 5 bytes |
| DenseRegion.Entries | src/world/region.js:81-91 | the table holds 5 bytes per chunk |
| DenseRegion.EntryFields | src/world/region.js:82-90 | entry `i` holds the offset `331 + 27000 i` in 24 bits and the size 27000 in 16 bits |
| DenseRegion.ConcatSnoc | src/world/region.js:96-105 | appending one more core appends its bytes |
| DenseRegion.ConcatSlot | src/world/region.js:96-105 | the data area holds 27000 bytes per core and core `k` at `27000 k` |
| DenseRegion.EntriesSlot | src/world/region.js:83-91 | entry `i` sits at `5 i` in the table |
| DenseRegion.CheckHeader | src/world/region.js:116-129 | the header passes exactly when the buffer has 11 bytes with the magic, version 1, sizes 30 and the count 64; a read past the end throws first |
| DenseRegion.ScanEntries | src/world/region.js:134-143 | the scan succeeds exactly when every size field is 27000, giving each entry's slice; otherwise it reports the first entry with a wrong size |
| DenseRegion.HeaderAccepted | src/world/region.js:69-129 | the header `toBuffer` writes passes every check of `fromBuffer` |
| DenseRegion.ReadEntry | src/world/region.js:84-137 | reading an entry written by `toBuffer` gives its offset and the size 27000 |
| DenseRegion.EncodedEntry | src/world/region.js:64-140 | a written file is 1 728 331 bytes and entry `i`'s slice is core `i` |
| DenseRegion.ScanEncoded | src/world/region.js:134-143 | scanning a written file gives back the cores written |
| DenseRegion.DecodeEncode | src/world/region.js:64-146 | reading the bytes of a written region gives back every core written |
| DenseRegion.ReloadShiftsContent | src/world/region.js:99-142 | yet a chunk whose only voxel is the corner does not come back as it was: `fromCoreData` shifts it |
| DenseRegion.FirstBadEntry | src/world/region.js:134-138 | loading stops at the first entry whose size field is not 27000 |
| DenseRegion.SetAt | src/world/region.js:103 | `Uint8Array.set` writes the source at the position and keeps what comes before |
| DenseRegion.DataStep | src/world/region.js:96-105 | one data step appends the next core after the data written so far |
| DenseRegion.Region.constructor | src/world/region.js:9-32 | a region of 64 empty slots, the corner truncated to 32 bits |
| DenseRegion.Region.HasChunk | src/world/region.js:43-47 | out of range throws; otherwise whether the slot holds a chunk |
| DenseRegion.Region.GetChunk | src/world/region.js:43-48 | out of range throws; otherwise the slot's content |
| DenseRegion.Region.SetChunk | src/world/region.js:49-57 | out of range, then a value that is not a chunk, throws and changes nothing; otherwise only that slot changes |
| DenseRegion.Region.EnsureChunk | src/world/region.js:58-60 | out of range throws; an occupied slot is returned unchanged; an empty one gets a fresh all-air chunk at the origin given |
| DenseRegion.Region.ForEachChunk | src/world/region.js:61 | the callback is called once per slot, in slot order, with the slot's chunk and its grid cell |
| DenseRegion.Region.SlotCore | src/world/region.js:99 | a chunk's core data, or 27000 zero bytes for an empty slot |
| DenseRegion.Region.ToBuffer | src/world/region.js:64-108 | the file is the encoding of every slot's core, zeros for empty slots |
| DenseRegion.Region.WriteData | src/world/region.js:94-105 | the data loop writes every slot's core back to back after byte 331 |
| DenseRegion.Region.FromBuffer | src/world/region.js:111-146 | loading fails exactly when decoding fails, with its error; otherwise every slot holds `fromCoreData` of its entry's slice, with the cell as origin |
| DenseRegion.Region.LoadEntry | src/world/region.js:135-142 | one entry step fills only slot `i`, with a fresh chunk |
| DenseRegion.HeaderWrites | src/world/region.js:66-78 | the header writes give the header |
| DenseRegion.IndexTable | src/world/region.js:81-91 | the table loop writes every entry |
| WorldLoader.ChunkDataFromRegionBuffer | src/io/worldLoader.js:43-82 | the lookup throws exactly when the entry's offset bytes lie outside the buffer, gives `null` exactly for a zero offset, and otherwise copies up to 27000 bytes from the offset, cut short at the end of the buffer |
| WorldLoader.LoadsEntry | src/io/worldLoader.js:49-61 | an entry with a non-zero offset and the full size yields its slice |
| WorldLoader.LoadsEncodedChunk | src/io/worldLoader.js:43-62 | in a file written by `Region.toBuffer` the lookup finds exactly the core stored for the chunk |
| WorldLoader.SizeFieldIgnored | src/io/worldLoader.js:53-61 | the entry's size field plays no part in the lookup |
| WorldLoader.Loader.constructor | src/io/worldLoader.js:5-8 | nothing asked for and nothing stored |
| WorldLoader.Loader.BeginFetch | src/io/worldLoader.js:10-18 | a key already recorded returns at once; a new key is recorded before any fetch, and the stored buffers do not change |
| WorldLoader.Loader.FinishFetch | src/io/worldLoader.js:20-40 | once the fetch settles, the body, or an empty buffer when the response is not ok or the fetch throws, is stored under the key, also when the key was dropped from `loadedRegions` while the fetch was awaited |
| WorldLoader.StoreAfterUnload | src/io/worldLoader.js:17-40 | a region unloaded during the await keeps the buffer its fetch stores, without its key among the loaded regions, so the next call fetches again and the new buffer replaces the old one |
| WorldLoader.Loader.FetchAndStoreRegionData | src/io/worldLoader.js:10-41 | a call for a new key records it and stores its buffer; a repeated call changes nothing |
| WorldLoader.FailedRegionLookupThrows | src/io/worldLoader.js:25-88 | after a failed fetch the stored buffer is empty, and a lookup in it throws rather than returning `null` |
| WorldLoader.MemoryServesStoredRegion | src/io/worldLoader.js:84-89 | with a written region file stored under its key, each chunk's core is served from it; with nothing stored the answer is `null` |
| VoxelWindow.WindowValues | src/worker/voxelWindowUpdater.js:29-30 | the window is three regions of 120 voxels a side, 360³ bytes; a region file holds 64 · 27000 voxels |
| VoxelWindow.CellOf | src/worker/voxelWindowUpdater.js:4-5 | every window index below 360³ is the index of one window cell |
| VoxelWindow.CellOfIndex | src/worker/voxelWindowUpdater.js:4-5 | every window cell has its own index in the window, and the index gives the cell back |
| VoxelWindow.SplitCoordinate | src/worker/voxelWindowUpdater.js:72-80 | a coordinate `30 c + l` in a region splits back into chunk `c` and voxel `l` |
| VoxelWindow.ChunkView | src/worker/voxelWindowUpdater.js:7-23 | a chunk found is a view of exactly 27000 bytes |
| VoxelWindow.ViewAgreesWithLoader | src/worker/voxelWindowUpdater.js:7-23 | the worker's lookup finds the same chunk as the loader's whenever it does not throw, and throws exactly where the loader's entry read throws or its copy would be cut short |
| VoxelWindow.Locate | src/worker/voxelWindowUpdater.js:72-84 | a window cell outside the region's block receives no voxel; a cell inside receives exactly the voxel whose target it is |
| VoxelWindow.LocateTarget | src/worker/voxelWindowUpdater.js:72-84 | every voxel of a region placed in the window lands on a cell of the window, and that cell maps back to it |
| VoxelWindow.OrderInjective | src/worker/voxelWindowUpdater.js:66-81 | the loops visit each voxel of the region once |
| VoxelWindow.Written | src/worker/voxelWindowUpdater.js:82-83 | a byte is written only when it is not air |
| VoxelWindow.WindowAfter | src/worker/voxelWindowUpdater.js:66-90 | the window keeps its size |
| VoxelWindow.NothingVisited | src/worker/voxelWindowUpdater.js:66-90 | before the first voxel the window is as it was |
| VoxelWindow.CellStep | src/worker/voxelWindowUpdater.js:82-84 | one more voxel changes at most its own cell, which takes the byte written for it |
| VoxelWindow.WindowStep | src/worker/voxelWindowUpdater.js:81-85 | one step of the `lx` loop writes the voxel's cell when it is not air and changes nothing otherwise |
| VoxelWindow.WindowSkip | src/worker/voxelWindowUpdater.js:69-70 | a chunk with offset 0 leaves the window as it was |
| VoxelWindow.VoxelCopied | src/worker/voxelWindowUpdater.js:66-90 | once a voxel is visited its cell holds the voxel when it is not air, and its old value otherwise |
| VoxelWindow.OutsideUntouched | src/worker/voxelWindowUpdater.js:72-84 | cells outside the region's 120³ block are never written |
| VoxelWindow.FailureFrom | src/worker/voxelWindowUpdater.js:66-70 | the first position from `q` whose chunk lookup throws, with every lookup before it succeeding; 64 when none throws |
| VoxelWindow.FirstFailureAt | src/worker/voxelWindowUpdater.js:66-70 | a lookup that throws after all earlier ones succeeded is the first failure |
| VoxelWindow.FoundNext | src/worker/voxelWindowUpdater.js:69 | one more chunk found extends the run of chunks found |
| VoxelWindow.ChunkAtItsOrder | src/worker/voxelWindowUpdater.js:66-68 | the chunk of loop counters `(cx, cy, cz)` is the chunk visited at their position |
| VoxelWindow.OnMessage | src/worker/voxelWindowUpdater.js:25-93 | other types are ignored; without exactly one region or with an empty file the reply is posted and nothing is written; otherwise every chunk up to the first throwing lookup is copied, and the reply is posted only when none throws |
| VoxelWindow.CopyRegion | src/worker/voxelWindowUpdater.js:66-90 | the chunk loops copy every chunk before the first throwing lookup, and succeed exactly when none throws |
| VoxelWindow.VisitRowOfChunks | src/worker/voxelWindowUpdater.js:67-88 | the `cx` loop over one row of chunks copies its four chunks in order, or stops at the first throwing lookup with the window holding exactly the chunks before it |
| VoxelWindow.VisitChunk | src/worker/voxelWindowUpdater.js:68-87 | one chunk: found chunks are copied, chunks not held (`continue`) leave the window as it was, a throwing lookup is the first failure and changes nothing |
| VoxelWindow.CopyChunk | src/worker/voxelWindowUpdater.js:72-87 | the voxel loops for one chunk advance the window by its 27000 voxels |
| VoxelWindow.CopyRow | src/worker/voxelWindowUpdater.js:79-85 | the innermost loop advances the window by one row of 30 voxels |
| ChunkStreaming.ChunkKeyInjective | src/world/chunkManager.js:136 | two chunks with the same key string are the same chunk, so the key set `loadedChunks` names each chunk at most once (the same key is built at lines 51 and 207) |
| ChunkStreaming.KeyOfRegion | src/world/chunkManager.js:300 | a chunk key is its region's key, a `_`, and the chunk's three coordinates (keys built at line 136) |
| ChunkStreaming.SeparatorPrefixMatchesRegion | src/world/chunkManager.js:298-305 | a chunk key starts with the region key followed by `_` exactly when the chunk lies in that region |
| ChunkStreaming.BarePrefixMatchesOtherRegion | src/world/chunkManager.js:300 | the prefix test as written matches a chunk of another region: key `1_2_34_0_0_0` starts with region key `1_2_3` |
| ChunkStreaming.SeparatorTestFindsRegionChunks | src/world/chunkManager.js:300 | over any set of chunks, the prefix test with the separator finds a key exactly when some chunk of the region is in the set |
| ChunkStreaming.CurrentChunkHoldsPlayer | src/world/chunkManager.js:180-187 | the region and chunk computed from a player coordinate put the chunk in the 4-chunk grid and its 30-voxel span holds the player |
| ChunkStreaming.Wraps | src/world/chunkManager.js:199-205 | the wrapped chunk coordinate lies in 0..3 and region·4 + chunk equals the unwrapped global chunk coordinate |
| ChunkStreaming.GlobalUnique | src/world/chunkManager.js:199-205 | a global chunk coordinate determines its region and in-grid chunk |
| ChunkStreaming.NeighbourIsOffset | src/world/chunkManager.js:195-205 | the neighbour at offset d is the in-grid chunk whose global coordinates are the center's plus d |
| ChunkStreaming.Column | src/world/chunkManager.js:194-213 | the innermost loop after n turns has visited n chunks; which ones is stated by `ColumnMembers` and `ColumnAt` |
| ChunkStreaming.FullRange | src/world/chunkManager.js:192-194 | a loop of 2·radius + 1 turns from -radius ends at radius, and visits nothing for a negative radius |
| ChunkStreaming.ColumnMembers | src/world/chunkManager.js:194 | the innermost loop after n turns has visited exactly the neighbours with dz in [-radius, n - 1 - radius] |
| ChunkStreaming.FullColumnMembers | src/world/chunkManager.js:194 | a finished innermost loop has visited exactly the neighbours with dz in [-radius, radius] |
| ChunkStreaming.SlabMembers | src/world/chunkManager.js:193-194 | the middle loop after n turns has visited exactly the full columns with dy in [-radius, n - 1 - radius] |
| ChunkStreaming.FullSlabMembers | src/world/chunkManager.js:193-194 | a finished middle loop has visited exactly the full columns with dy in [-radius, radius] |
| ChunkStreaming.HoodMembers | src/world/chunkManager.js:192-194 | the outer loop after n turns has visited exactly the full slabs with dx in [-radius, n - 1 - radius] |
| ChunkStreaming.NeighbourhoodMembers | src/world/chunkManager.js:192-207 | a chunk is considered exactly when it is the neighbour at some offset with every axis in [-radius, radius] |
| ChunkStreaming.SlabLength | src/world/chunkManager.js:193-194 | a middle loop after n turns has visited n·(2·radius + 1) chunks |
| ChunkStreaming.HoodLength | src/world/chunkManager.js:192-194 | the outer loop after n turns has visited n·(2·radius + 1)² chunks |
| ChunkStreaming.NeighbourhoodSize | src/world/chunkManager.js:192-194 | the loops consider (2·radius + 1)³ chunks, and none for a negative radius |
| ChunkStreaming.Unloaded | src/world/chunkManager.js:208-213 | the filter keeps at most as many chunks as it is given; which ones is stated by `UnloadedMembers` and `UnloadedSnoc` |
| ChunkStreaming.UnloadedMembers | src/world/chunkManager.js:208-213 | a chunk is kept exactly when it was considered and its key is not in `loadedChunks` |
| ChunkStreaming.UnloadedAppend | src/world/chunkManager.js:208-213 | filtering a concatenation filters each part, so the loops' results can be built column by column |
| ChunkStreaming.UnloadedSnoc | src/world/chunkManager.js:208-213 | one more considered chunk is appended to the result exactly when its key is not loaded |
| ChunkStreaming.ColumnAt | src/world/chunkManager.js:194-205 | position i of a column is the neighbour at dz = i - radius |
| ChunkStreaming.ColumnRun | src/world/chunkManager.js:194-205 | a run of neighbours indexed by dz is exactly the full column |
| ChunkStreaming.SlabRunsFlatten | src/world/chunkManager.js:193-194 | the columns of a slab, one after another, are the whole slab |
| ChunkStreaming.HoodRunsFlatten | src/world/chunkManager.js:192-194 | the slabs, one after another, are every chunk the loops consider, in their order |
| ChunkStreaming.ShellCellOf | src/world/chunkManager.js:458 | the inverse of the shell index: each index in 0..32³ - 1 names a cell of the 32³ shell whose index it is |
| ChunkStreaming.ShellCellOfIndex | src/world/chunkManager.js:458 | each cell of the shell has its own index in 0..32³ - 1 |
| ChunkStreaming.Shell | src/world/chunkManager.js:432-465 | the shell returned for a chunk holds 32³ bytes; each byte is stated by `ShellHoldsWindow` |
| ChunkStreaming.ShellAfter | src/world/chunkManager.js:444-463 | the shell part-way through the loops holds 32³ bytes; how each visit changes it is stated by `ShellStep` and `ShellEnds` |
| ChunkStreaming.ShellOrderInjective | src/world/chunkManager.js:444-446 | the x, y, z loops visit each shell cell once |
| ChunkStreaming.ShellStep | src/world/chunkManager.js:447-460 | visiting one more cell sets that cell to the window's voxel (or leaves 0 outside the window) and changes no other |
| ChunkStreaming.ShellEnds | src/world/chunkManager.js:437-464 | the shell starts all zero and is complete once every cell has been visited |
| ChunkStreaming.ShellHoldsWindow | src/world/chunkManager.js:439-459 | shell cell (x, y, z) is the window voxel at the chunk's origin plus (x - 1, y - 1, z - 1), or 0 when that lies outside the 360³ window |
| ChunkStreaming.FirstFree | src/world/chunkManager.js:94-151 | the first free worker, with every earlier worker busy; none exactly when every worker is busy |
| ChunkStreaming.ErrorReplyMarksNoChunk | src/world/chunkManager.js:45-52 | the key built from an `error` reply, which carries no coordinates, is no chunk's key, so a chunk whose mesh failed is never marked loaded |
| ChunkStreaming.AirWindowGivesEmptyShell | src/world/chunkManager.js:140-148 | a window of air gives an all-air shell for every chunk, so the chunk is marked loaded with no task |
| ChunkStreaming.ChunkManager.constructor | src/world/chunkManager.js:5-42 | a manager with four free workers, nothing loaded, queued or posted, and the loader, window and origin it holds once `updateVoxelWindow` has run |
| ChunkStreaming.ChunkManager.SubmitTaskToWorker | src/world/chunkManager.js:103-106 | the worker is marked busy and the task is posted to it; nothing else changes |
| ChunkStreaming.ChunkManager.ProcessQueue | src/world/chunkManager.js:92-100 | with a waiting task and a free worker, the queue's head goes to the first free worker; otherwise nothing changes |
| ChunkStreaming.ChunkManager.OnWorkerMessage | src/world/chunkManager.js:44-88 | the answering worker is freed, the key built from the reply is marked loaded, and a waiting task takes that worker; tasks keep waiting only while every worker is busy |
| ChunkStreaming.ChunkManager.GetChunkDataWithShell | src/world/chunkManager.js:432-465 | a fresh 32³ array equal to the chunk's shell read from the window |
| ChunkStreaming.ChunkManager.FillShellColumn | src/world/chunkManager.js:446-461 | the innermost loop fills the 32 cells of one z column in the loops' order |
| ChunkStreaming.ChunkManager.LoadChunk | src/world/chunkManager.js:135-164 | a loaded chunk is skipped; an all-air shell marks it loaded; otherwise a task with its shell goes to the first free worker, or waits in the queue when every worker is busy |
| ChunkStreaming.ChunkManager.FindChunksToLoad | src/world/chunkManager.js:178-217 | every chunk in the (2·radius + 1)³ neighbourhood of the player's chunk whose key is not loaded, in the loops' order |
| ChunkStreaming.ChunkManager.CollectNeighbourhood | src/world/chunkManager.js:192-214 | the dx loop returns the unloaded chunks of the whole neighbourhood |
| ChunkStreaming.ChunkManager.CollectSlab | src/world/chunkManager.js:193-214 | the dy loop returns the unloaded chunks of one slab |
| ChunkStreaming.ChunkManager.CollectColumn | src/world/chunkManager.js:194-214 | the dz loop returns the unloaded chunks of one column |
| ChunkStreaming.ChunkManager.NeighbourOf | src/world/chunkManager.js:195-205 | the wrapped region and chunk computed from an offset are the column's chunk at that offset |
| ChunkStreaming.ChunkManager.UnloadRegionIfAllChunksUnloaded | src/world/chunkManager.js:298-308 | as written: the region's data and key are dropped unless some loaded key starts with the bare region key |
| ChunkStreaming.ChunkManager.UnloadRegionWithSeparator | src/world/chunkManager.js:298-308 | with the separator: the region is dropped exactly when no loaded key belongs to one of its chunks |
| FaceMesher.Color | src/worker/worker_structured.js:21-30 | each of types 0 to 7 has a four-component RGBA colour |
| FaceMesher.FaceRule | src/worker/worker_structured.js:88-91 | a face is drawn exactly when the neighbour is air, or the voxel is opaque and the neighbour transparent; types without an opacity entry count as opaque |
| FaceMesher.OpaqueNeighboursHideFaces | src/worker/worker_structured.js:32-91 | between two opaque voxels neither face is drawn |
| FaceMesher.OpaqueAgainstClearDrawsOneSide | src/worker/worker_structured.js:32-91 | between an opaque voxel and a transparent non-air one only the opaque side is drawn |
| FaceMesher.ClearNeighboursHideFaces | src/worker/worker_structured.js:32-91 | between two transparent non-air voxels (water against lava) no face is drawn |
| FaceMesher.CubeFace | src/worker/worker_structured.js:43-50 | each face has four corners (12 numbers), four normals (12) and four uv pairs (8) |
| FaceMesher.UnitCorners | src/worker/worker_structured.js:43-50 | every corner coordinate of every face is +1 or -1 |
| FaceMesher.NormalsFaceTheNeighbour | src/worker/worker_structured.js:43-83 | the four normals of face f all equal the neighbour offset f, so each face points at the neighbour it is culled against |
| FaceMesher.NeighboursInShell | src/worker/worker_structured.js:70-87 | an interior cell and its six neighbours have indices inside the 32³ shell |
| FaceMesher.DrawnUpTo | src/worker/worker_structured.js:85-93 | at most n of a voxel's first n faces are drawn |
| FaceMesher.Corner | src/worker/worker_structured.js:97-101 | a corner of a face has three coordinates |
| FaceMesher.Corners | src/worker/worker_structured.js:97-101 | the first k corners of a face give 3k coordinates |
| FaceMesher.FacePositions | src/worker/worker_structured.js:97-101 | a face gives twelve position coordinates |
| FaceMesher.QuadColors | src/worker/worker_structured.js:131-133 | a quad's colours are 16 numbers, the type's RGBA once per vertex |
| FaceMesher.AfterFaces | src/worker/worker_structured.js:85-136 | unless a face throws, the voxel's type has buffers once its faces are visited |
| FaceMesher.CellAt | src/worker/worker_structured.js:70-72 | the cell the loops visit at each position is an interior cell |
| FaceMesher.CellAtOrder | src/worker/worker_structured.js:70-72 | each interior cell is visited once, at position 900(x - 1) + 30(y - 1) + (z - 1) |
| FaceMesher.OrderOfCell | src/worker/worker_structured.js:70-72 | each position of the loops names the cell visited there |
| FaceMesher.Uint16s | src/worker/worker_structured.js:146 | the Uint16Array conversion keeps the number of indices |
| FaceMesher.Finalize | src/worker/worker_structured.js:141-150 | the final mesh has arrays for exactly the types that have buffers |
| FaceMesher.CornersHalf | src/worker/worker_structured.js:97-101 | the corners of a face of an interior cell are half-integers in [-0.5, 29.5] |
| FaceMesher.FacePositionsHalf | src/worker/worker_structured.js:97-101 | every coordinate of a face of an interior cell is a half-integer in [-0.5, 29.5], a voxel corner of the 30³ core |
| FaceMesher.AppendQuad | src/worker/worker_structured.js:121-129 | appending the next quad's indices keeps quad k on vertices 4k to 4k + 3 in the pattern 0, 1, 2, 0, 2, 3 |
| FaceMesher.AppendColors | src/worker/worker_structured.js:131-133 | appending the colour for four more vertices keeps one RGBA colour per vertex |
| FaceMesher.AppendCorners | src/worker/worker_structured.js:97-101 | appending a face of an interior cell keeps every position a half-integer of the core |
| FaceMesher.EmitShaped | src/worker/worker_structured.js:93-135 | a drawn face adds 12 positions, 12 normals, 6 indices, 16 colours, 8 uvs and 4 to indexOffset, keeping the buffers' invariants |
| FaceMesher.EmptyShaped | src/worker/worker_structured.js:56-68 | the buffers getMeshData creates hold no face and meet the buffers' invariants |
| FaceMesher.AfterFacesIs | src/worker/worker_structured.js:79-136 | the faces of a voxel touch only its type's buffers, grow them by the drawn faces, and throw exactly when a colourless type draws a face |
| FaceMesher.FacesOfShaped | src/worker/worker_structured.js:85-136 | the faces of a coloured voxel keep its buffers' invariants, grown by the faces drawn |
| FaceMesher.FacesOfColourless | src/worker/worker_structured.js:85-136 | the faces of a colourless voxel leave its buffers unchanged |
| FaceMesher.UnseenEmpty | src/worker/worker_structured.js:56-79 | a type not yet met has no buffers of its own |
| FaceMesher.SeenStep | src/worker/worker_structured.js:70-73 | a type is met among the first p voxels exactly when it is met among the first p - 1 or is voxel p - 1 |
| FaceMesher.FailsBeforeStep | src/worker/worker_structured.js:70-136 | some of the first p cells fails exactly when one of the first p - 1 does or cell p - 1 does |
| FaceMesher.VisitCellStart | src/worker/worker_structured.js:75-79 | a non-air cell's faces start from its type's buffers so far, or from fresh ones |
| FaceMesher.VisitCellFails | src/worker/worker_structured.js:75-136 | one cell fails exactly when it draws a face for a colourless type |
| FaceMesher.VisitCellTracks | src/worker/worker_structured.js:75-136 | a cell that does not fail changes nothing when air and otherwise adds its drawn faces to its type's buffers only |
| FaceMesher.MeshAfterFails | src/worker/worker_structured.js:70-139 | the loops over the first p cells throw exactly when one of those cells draws a face for a colourless type |
| FaceMesher.MeshAfterTracks | src/worker/worker_structured.js:70-139 | unless they throw, the loops over the first p cells hold buffers for exactly the non-air types met, each holding that type's faces alone |
| FaceMesher.TypeGroupShaped | src/worker/worker_structured.js:70-139 | while nothing has thrown, each type's buffers hold one quad per face drawn for that type |
| FaceMesher.FailsBeforeAll | src/worker/worker_structured.js:70-72 | failing at some position of the loops is failing at some interior cell |
| FaceMesher.SeenAll | src/worker/worker_structured.js:70-72 | meeting a type at some position of the loops is meeting it at some interior cell |
| FaceMesher.MeshFails | src/worker/worker_structured.js:53-153 | the mesher throws exactly when some interior voxel of a colourless type (8 and above) has a visible face, and the error names a colourless type |
| FaceMesher.MeshTypes | src/worker/worker_structured.js:53-153 | the mesh has arrays for exactly the non-air types among the interior voxels |
| FaceMesher.MeshBuffers | src/worker/worker_structured.js:53-153 | the arrays of a type with F drawn faces hold 12F corner positions, 12F normals, 8F uvs, its colour once per vertex, and 6F indices following the quad pattern modulo 65536 |
| FaceMesher.IndicesFit | src/worker/worker_structured.js:114-146 | the indices of F quads stay below 4F, so Uint16Array keeps them unchanged while F <= 16384 |
| FaceMesher.IndicesWrap | src/worker/worker_structured.js:129-146 | with more than 16384 faces of one type the first index of quad 16384 is 65536, which Uint16Array turns into 0 |
| FaceMesher.Times | src/worker/worker_structured.js:131-133 | a colour repeated k times has k times its length |
| FaceMesher.TimesFour | src/worker/worker_structured.js:131-133 | a colour repeated four times is that colour pushed once per vertex |
| FaceMesher.PushCorners | src/worker/worker_structured.js:97-101 | the corner loop appends the face's four corners, halved and moved to cell (x - 1, y - 1, z - 1) |
| FaceMesher.PushColors | src/worker/worker_structured.js:131-133 | the colour loop appends the type's colour four times, or throws for a type without a colour |
| FaceMesher.EmitFace | src/worker/worker_structured.js:94-134 | a drawn face's positions, normals, indices, indexOffset, colours and uvs are appended, or the colour push throws |
| FaceMesher.AfterFacesErr | src/worker/worker_structured.js:85-136 | once a face has thrown, later faces are never visited |
| FaceMesher.MeshAfterErr | src/worker/worker_structured.js:70-139 | once the loops have thrown, no later cell is visited |
| FaceMesher.VisitFace | src/worker/worker_structured.js:85-135 | one turn of the face loop is the face rule followed by the face's quad in the voxel type's buffers |
| FaceMesher.VisitFaces | src/worker/worker_structured.js:81-136 | the loop over the six faces of a voxel, stopping at a throw |
| FaceMesher.VisitVoxel | src/worker/worker_structured.js:73-136 | air is skipped; otherwise the type's buffers are fetched or created and the six faces visited |
| FaceMesher.MeshAfterStep | src/worker/worker_structured.js:70-72 | the loops' next cell after a position is the cell at that position |
| FaceMesher.MeshColumn | src/worker/worker_structured.js:72-137 | the z loop of column (x, y) advances the mesh over that column's 30 cells |
| FaceMesher.MeshSlab | src/worker/worker_structured.js:71-138 | the y loop of slab x advances the mesh over that slab's 900 cells |
| FaceMesher.ToUint16Array | src/worker/worker_structured.js:146 | each index is kept modulo 65536 |
| FaceMesher.FinalizeGroups | src/worker/worker_structured.js:141-150 | one set of arrays per type with buffers, indices converted to Uint16 |
| FaceMesher.GenerateMeshForChunkVoxel | src/worker/worker_structured.js:53-153 | the mesh of a 32³ shell, whose meaning is stated by MeshFails, MeshTypes and MeshBuffers |
| RegionValidator.Histograms | validate_region.js:19-26 | one 256-bin histogram per chunk of the decoded region |
| RegionValidator.TotalIsEveryVoxel | validate_region.js:16-24 | every histogram counts all of its chunk's voxels, so the total is the number of chunks times 27000 |
| RegionValidator.SolidChunk | validate_region.js:28 | a chunk's histogram has a positive dirt, grass and rock count exactly when the chunk holds one of those voxels |
| RegionValidator.NonAirOfChunks | validate_region.js:28 | over any chunks, the summed dirt, grass and rock counts are positive exactly when some chunk holds one of those voxels |
| RegionValidator.NonAirMeansSolid | validate_region.js:28 | the region's solid count is positive exactly when some chunk of the region holds dirt, grass or rock |
| RegionValidator.VerifyVerdict | validate_region.js:12-48 | success exactly when the file loads and some chunk holds dirt, grass or rock; a loaded file reports 64 · 27000 voxels; a file that fails to load reports the error |
| RegionValidator.SumCounts | validate_region.js:23 | the reduce over a histogram is the sum of its counts |
| RegionValidator.CountNonAir | validate_region.js:28 | the reduce over the histograms is the sum of their dirt, grass and rock counts |
| RegionValidator.CollectHistograms | validate_region.js:19-26 | the forEachChunk callback gathers every chunk's histogram in slot order and their total |
| RegionValidator.VerifyGeneratedRegion | validate_region.js:12-48 | the report for the buffer, whose verdict is stated by VerifyVerdict |

## Left out

- Rendering, scene and worker plumbing are not modelled. This covers Babylon.js meshes and materials (`getOrCreateMaterial`, the mesh building in `onWorkerMessage`, src/world/chunkManager.js:54-86), `console` logging and the worker `onmessage` wrappers. These are rendering and messaging glue.
- The `postMessage` transport and transfer lists are reduced to bookkeeping. `ChunkStreaming.ChunkManager` records each posted task in `posted`, and `VoxelWindow.OnMessage` returns its reply as an outcome. Concurrency is not modelled.
- Distance-based unloading is not modelled: `unloadFarChunks`, `unloadChunk` and `unloadFarRegions` use float `Math.sqrt` and scene disposal.
- The main-thread `updateVoxelWindow` is not modelled: it is concurrency over a `SharedArrayBuffer`.
- `loadRegionAndMeshAllChunks`, `loadMissingChunks` and `initializeWorkerPool` are not modelled: they are `Promise.all` orchestration and `Worker` creation. `ChunkStreaming.ChunkManager.constructor` starts from the pool they create, four free workers. It also takes the loader, window and origin as parameters: the source constructor sets them to null (src/world/chunkManager.js:20-21), and they are filled in later by the assignment at src/app/game.js:20 and by `updateVoxelWindow` (src/world/chunkManager.js:324-346), so the modelled manager is the state after those.
- ChunkStreaming.ChunkManager.LoadChunk: the source's `async` function runs to completion without awaiting, so it is modelled as one step. A chunk handed to a worker is not marked loaded until the worker replies, as in the source.
- ChunkStreaming.ChunkManager.FindChunksToLoad: the player position is `real`; float rounding of `Math.floor` on the division is not modelled.
- VoxelWindow.OnMessage: requires the region named by a message that carries data to lie inside the window. The main thread, which is not modelled, only sends such regions; a region outside would write at wrapped indices.
- WorldLoader.Loader.FetchAndStoreRegionData: the network `fetch` is a `FetchOutcome` parameter. The `await` between recording the key and storing the data is modelled by splitting the call into `BeginFetch` and `FinishFetch`; an unload that runs during the `await` is the caller deleting the key between the two, which `FinishFetch` allows.
- `forEach`, `clone`, `createEmpty`, `toShellData`, `fromShellData` and `shellByteLength` of src/world/chunk.js are not modelled. They are iteration and copying helpers the modelled operations do not use.
- DenseChunk.Chunk.BlitFrom: the source chunk's voxels are passed as a value taken before the blit. The source reads them through a live `subarray`, so a chunk blitted into itself with overlapping boxes reads bytes it has already overwritten. For example, `c.blitFrom(c, {x:0,y:0,z:0,w:2,h:1,d:1}, {x:1,y:0,z:0})` leaves voxels 1 and 2 both equal to the old voxel 0, where the model gives old voxel 1 to voxel 2. This self-aliasing is not captured.
- DenseChunk.Chunk.MapInPlace: the callback is a pure function parameter over value and position. A callback with side effects is not modelled.
- DualContouring.ExtractMesh: vertex positions are a parameter (floating-point averages of edge crossings, whose `d0/(d0-d1)` may divide by zero). The material colour lookup is a parameter too: the mesher imports `getMaterialById` from app/core/palette.js, which is not part of this model, so the lookup is taken to return a colour or nothing. A lookup that throws, as app/renderer/palette.js does for ids outside 0-4, is not modelled. `Float32Array` rounding is not modelled. The loop of `#triangulateFaces` has an empty body, so the model adds no index.
- SamplingGrid.ChunkManager.SampleImplicitField: the implicit field (floating-point trigonometry in app/meshing/ImplicitField.js) is a parameter. Densities are `real`, without `Float32Array` rounding.
- FaceMesher.Mesh: positions and colours are `real`, without `Float32Array` rounding. `isBackFace` is false on every face, so the back-face branches are not modelled. The unused `GREEDY` branch of the worker is not modelled.
- Octree.OctreeNode: children are held as node values. Two parents sharing one child object is not modelled.
- `surfaceData` and `subVoxelData` of a node are carried but never read by the modelled code.
- src/data/OctreeNode.js is not part of this model. The legacy codec and accessor take its constructor to be the app node's, with the leaf test "state is EMPTY or SOLID".
- src/core/config.js is not part of this model: evaluating it throws. The legacy region file uses the 128 chunks its object literal spells out.
- src/core/World.js (File System Access I/O) is not part of this model. The accessors take the chunk roots as a function parameter.
- RegionValidator.VerifyGeneratedRegion: the report's message text and `fileName` are reduced to the voxel total or the caught error.

## Findings

| source | as written | input that shows it | evidently intended | confidence | as-written member | corrected member |
|---|---|---|---|---|---|---|
| app/data/OctreeNode.js:58-60 | `isLeaf()` holds only for a null state, which no constructed node has, so `#generateNodeRecursive` never merges uniform octants | a mini-chunk above the grass line (every voxel air) yields a 4681-node tree serialized to 4681 bytes | a node with state EMPTY or SOLID is a leaf, so uniform boxes collapse to one leaf and an air chunk is the single byte `[0]` | not executed | VoxelGenerator.AirChunkIsNotPruned | VoxelGenerator.PrunedAirChunk |
| src/world/chunk.js:79-90 | `x1` is clamped only from above, and `TypedArray.fill` counts a negative end from the end of the array | `fillBox(0, 0, 0, -1, 1, 1, v)`, an empty box, sets every voxel but the last to `v` | a box whose clamped extent is empty changes nothing; each box fills exactly its clamped voxels | not executed | DenseChunk.FillBoxNegativeEnd | DenseChunk.Chunk.FillBoxClamped |
| src/world/chunkManager.js:300 | the region test is `chunkKey.startsWith(regionKey)` with no separator after the key | chunk key `1_2_34_0_0_0` of region (1, 2, 34) starts with `1_2_3`, the key of region (1, 2, 3), which is then kept loaded | a loaded chunk keeps its region exactly when it lies in that region: prefix `regionKey + "_"` | not executed | ChunkStreaming.BarePrefixMatchesOtherRegion | ChunkStreaming.ChunkManager.UnloadRegionWithSeparator |
