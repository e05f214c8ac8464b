/**
 * The voxel-by-voxel mesher of src/worker/worker_structured.js
 * (`generateMeshForChunk_Voxel`). It reads a 32³ shell, visits the 30³
 * interior voxels with `x` outermost and `z` innermost, and for every solid
 * voxel appends one quad per visible face to the buffers of that voxel's
 * type. A face is visible when the voxel and the neighbour across it satisfy
 * the culling rule below; each visible face adds 4 vertices (12 position,
 * 12 normal, 16 colour and 8 uv numbers) and 6 indices. At the end every
 * index list becomes a `Uint16Array`, which keeps each index modulo 65536.
 *
 * A type with no entry in `VoxelColors` (8 and above) has no colour, and
 * spreading `undefined` into `push` throws a `TypeError` that aborts the
 * whole mesh; the model returns that as an error.
 */
module FaceMesher {
  import opened JsNumbers
  import opened Wrappers

  /** `CHUNK_SIZE_SHELL`: cells per axis of the shell. */
  const SHELL: nat := 32
  /** Bytes of a shell, `32³`. */
  const SHELL_BYTES: nat := 32_768
  /** Interior voxels the loops visit: `30³`. */
  const CELLS: nat := 27_000
  /** Indices a `Uint16Array` can hold without wrapping. */
  const UINT16: nat := 65_536

  // ---------------------------------------------------------------- voxel types

  /** `VoxelOpacity[t] === 'transparent'`: air, cloud, lava, water and acid. Types without an entry count as opaque. */
  predicate Transparent(t: int)
  {
    t == 0 || t == 2 || t == 5 || t == 6 || t == 7
  }

  /** The types `VoxelColors` has an entry for. */
  predicate HasColor(t: int)
  {
    0 <= t <= 7
  }

  /** `VoxelColors[t]`: red, green, blue, alpha. */
  function Color(t: int): (c: seq<real>)
    requires HasColor(t)
    ensures |c| == 4
  {
    if t == 1 then [0.55, 0.45, 0.25, 1.0]
    else if t == 2 then [1.0, 1.0, 1.0, 0.4]
    else if t == 3 then [0.2, 0.6, 0.2, 1.0]
    else if t == 4 then [0.4, 0.4, 0.4, 1.0]
    else if t == 5 then [0.9, 0.3, 0.0, 0.7]
    else if t == 6 then [0.2, 0.5, 1.0, 0.5]
    else if t == 7 then [0.6, 1.0, 0.2, 0.6]
    else [0.0, 0.0, 0.0, 0.0]
  }

  /** `shouldDrawFace`: a transparent voxel shows a face only to air; an opaque one to air or to anything transparent. */
  predicate ShouldDrawFace(voxel: int, neighbour: int)
  {
    (Transparent(voxel) && neighbour == 0) || (!Transparent(voxel) && (neighbour == 0 || Transparent(neighbour)))
  }

  /** A face is drawn exactly when the neighbour is air, or the voxel is opaque and the neighbour transparent. */
  lemma FaceRule(voxel: int, neighbour: int)
    ensures ShouldDrawFace(voxel, neighbour) <==> neighbour == 0 || (!Transparent(voxel) && Transparent(neighbour))
  {
  }

  /** Between two opaque voxels neither face is drawn. */
  lemma OpaqueNeighboursHideFaces(a: int, b: int)
    requires !Transparent(a) && !Transparent(b)
    ensures !ShouldDrawFace(a, b) && !ShouldDrawFace(b, a)
  {
  }

  /** Between an opaque voxel and a transparent, non-air one only the opaque side is drawn. */
  lemma OpaqueAgainstClearDrawsOneSide(a: int, b: int)
    requires !Transparent(a) && Transparent(b) && b != 0
    ensures ShouldDrawFace(a, b) && !ShouldDrawFace(b, a)
  {
  }

  /** Between two transparent, non-air voxels (water against lava, say) no face is drawn. */
  lemma ClearNeighboursHideFaces(a: int, b: int)
    requires Transparent(a) && Transparent(b) && a != 0 && b != 0
    ensures !ShouldDrawFace(a, b) && !ShouldDrawFace(b, a)
  {
  }

  // ---------------------------------------------------------------- the cube's faces

  /** `neighborOffsets[f]`: +x, −x, +y, −y, +z, −z. */
  function Offset(f: int): (int, int, int)
    requires 0 <= f < 6
  {
    if f == 0 then (1, 0, 0)
    else if f == 1 then (-1, 0, 0)
    else if f == 2 then (0, 1, 0)
    else if f == 3 then (0, -1, 0)
    else if f == 4 then (0, 0, 1)
    else (0, 0, -1)
  }

  /** `cubeFaceData[f]`: four corners as `±1` triples, four normals and four uv pairs. */
  datatype FaceData = FaceData(positions: seq<int>, normals: seq<int>, uvs: seq<int>)

  /** The table `cubeFaceData`; `isBackFace` is false on every face and is left out. */
  function CubeFace(f: int): (d: FaceData)
    requires 0 <= f < 6
    ensures |d.positions| == 12 && |d.normals| == 12 && |d.uvs| == 8
  {
    if f == 0 then FaceData([1, 1, 1, 1, 1, -1, 1, -1, -1, 1, -1, 1], [1, 0, 0, 1, 0, 0, 1, 0, 0, 1, 0, 0], [1, 1, 0, 1, 0, 0, 1, 0])
    else if f == 1 then FaceData([-1, 1, -1, -1, 1, 1, -1, -1, 1, -1, -1, -1], [-1, 0, 0, -1, 0, 0, -1, 0, 0, -1, 0, 0], [1, 1, 0, 1, 0, 0, 1, 0])
    else if f == 2 then FaceData([-1, 1, -1, 1, 1, -1, 1, 1, 1, -1, 1, 1], [0, 1, 0, 0, 1, 0, 0, 1, 0, 0, 1, 0], [0, 1, 1, 1, 1, 0, 0, 0])
    else if f == 3 then FaceData([-1, -1, 1, 1, -1, 1, 1, -1, -1, -1, -1, -1], [0, -1, 0, 0, -1, 0, 0, -1, 0, 0, -1, 0], [0, 0, 1, 0, 1, 1, 0, 1])
    else if f == 4 then FaceData([-1, 1, 1, 1, 1, 1, 1, -1, 1, -1, -1, 1], [0, 0, 1, 0, 0, 1, 0, 0, 1, 0, 0, 1], [0, 1, 1, 1, 1, 0, 0, 0])
    else FaceData([1, 1, -1, -1, 1, -1, -1, -1, -1, 1, -1, -1], [0, 0, -1, 0, 0, -1, 0, 0, -1, 0, 0, -1], [0, 1, 1, 1, 1, 0, 0, 0])
  }

  /** Every corner of every face is `±1` on each axis, so it lies half a voxel from the centre. */
  lemma UnitCorners(f: int)
    requires 0 <= f < 6
    ensures forall i :: 0 <= i < 12 ==> CubeFace(f).positions[i] == 1 || CubeFace(f).positions[i] == -1
  {
    if f == 0 {
    } else if f == 1 {
    } else if f == 2 {
    } else if f == 3 {
    } else if f == 4 {
    }
  }

  /** Each face's four normals all point along its neighbour offset. */
  lemma NormalsFaceTheNeighbour(f: int)
    requires 0 <= f < 6
    ensures var o := Offset(f); CubeFace(f).normals == [o.0, o.1, o.2] + [o.0, o.1, o.2] + [o.0, o.1, o.2] + [o.0, o.1, o.2]
  {
    if f == 0 {
    } else if f == 1 {
    } else if f == 2 {
    } else if f == 3 {
    } else if f == 4 {
    }
  }

  // ---------------------------------------------------------------- the shell

  /** `x + CHUNK_SIZE_SHELL * (y + CHUNK_SIZE_SHELL * z)`. */
  function ShellIndex(x: int, y: int, z: int): int
  {
    x + 32 * (y + 32 * z)
  }

  /** The cells the loops visit: every coordinate in `[1, 31)`. */
  predicate Interior(x: int, y: int, z: int)
  {
    1 <= x < 31 && 1 <= y < 31 && 1 <= z < 31
  }

  /** An interior cell and its six neighbours lie in the shell. */
  lemma NeighboursInShell(x: int, y: int, z: int, f: int)
    requires Interior(x, y, z) && 0 <= f < 6
    ensures 0 <= ShellIndex(x, y, z) < SHELL_BYTES
    ensures var o := Offset(f); 0 <= ShellIndex(x + o.0, y + o.1, z + o.2) < SHELL_BYTES
  {
  }

  /** The voxel across face `f` of cell `(x, y, z)`. */
  function NeighbourVoxel(chunk: seq<byte>, x: int, y: int, z: int, f: int): byte
    requires |chunk| == SHELL_BYTES && Interior(x, y, z) && 0 <= f < 6
  {
    NeighboursInShell(x, y, z, f);
    var o := Offset(f);
    chunk[ShellIndex(x + o.0, y + o.1, z + o.2)]
  }

  /** Whether face `f` of the voxel at `(x, y, z)` is drawn. */
  predicate Drawn(chunk: seq<byte>, x: int, y: int, z: int, f: int)
    requires |chunk| == SHELL_BYTES && Interior(x, y, z) && 0 <= f < 6
  {
    NeighboursInShell(x, y, z, f);
    ShouldDrawFace(chunk[ShellIndex(x, y, z)], NeighbourVoxel(chunk, x, y, z, f))
  }

  /** How many of the first `n` faces of the voxel at `(x, y, z)` are drawn. */
  function DrawnUpTo(chunk: seq<byte>, x: int, y: int, z: int, n: nat): (r: nat)
    requires |chunk| == SHELL_BYTES && Interior(x, y, z) && n <= 6
    ensures r <= n
  {
    if n == 0 then 0 else DrawnUpTo(chunk, x, y, z, n - 1) + (if Drawn(chunk, x, y, z, n - 1) then 1 else 0)
  }

  // ---------------------------------------------------------------- the per-type buffers

  /** The buffers of one voxel type before conversion to typed arrays, and `indexOffset`. */
  datatype Group = Group(positions: seq<real>, normals: seq<int>, indices: seq<int>, colors: seq<real>, uvs: seq<int>, indexOffset: int)

  /** What `getMeshData` creates for a type seen for the first time. */
  const EMPTY_GROUP: Group := Group([], [], [], [], [], 0)

  /** The `TypeError` thrown by `colors.push(...VoxelColors[t])` for a type without a colour. */
  datatype MeshError = ColorNotIterable(voxelType: byte)

  /** Corner `k` of a face of cell `(x, y, z)`: `(c − 1) + p · 0.5` on each axis, `p` the corner's `±1` triple. */
  function Corner(x: int, y: int, z: int, p: seq<int>, k: nat): (r: seq<real>)
    requires 3 * k + 3 <= |p|
    ensures |r| == 3
  {
    [x as real - 1.0 + p[3 * k] as real * 0.5, y as real - 1.0 + p[3 * k + 1] as real * 0.5, z as real - 1.0 + p[3 * k + 2] as real * 0.5]
  }

  /** The first `k` corners of a face of cell `(x, y, z)`, three coordinates each. */
  function Corners(x: int, y: int, z: int, p: seq<int>, k: nat): (r: seq<real>)
    requires 3 * k <= |p|
    ensures |r| == 3 * k
  {
    if k == 0 then [] else Corners(x, y, z, p, k - 1) + Corner(x, y, z, p, k - 1)
  }

  /** The twelve coordinates of face `f` of cell `(x, y, z)`. */
  function FacePositions(x: int, y: int, z: int, f: int): (r: seq<real>)
    requires 0 <= f < 6
    ensures |r| == 12
  {
    Corners(x, y, z, CubeFace(f).positions, 4)
  }

  /** The six indices of one quad: `offset + [0, 1, 2, 0, 2, 3]`. */
  function QuadIndices(o: int): seq<int>
  {
    [o, o + 1, o + 2, o, o + 2, o + 3]
  }

  /** The colour pushed four times, once per vertex. */
  function QuadColors(t: int): (r: seq<real>)
    requires HasColor(t)
    ensures |r| == 16
  {
    Color(t) + Color(t) + Color(t) + Color(t)
  }

  /** The buffers after one drawn face `f` of a voxel of type `t` at `(x, y, z)`. */
  function Emit(g: Group, x: int, y: int, z: int, f: int, t: int): Group
    requires 0 <= f < 6 && HasColor(t)
  {
    Group(
      g.positions + FacePositions(x, y, z, f),
      g.normals + CubeFace(f).normals,
      g.indices + QuadIndices(g.indexOffset),
      g.colors + QuadColors(t),
      g.uvs + CubeFace(f).uvs,
      g.indexOffset + 4)
  }

  /**
   * One turn of the `forEach` over the faces of the voxel of type `v` at
   * `(x, y, z)`: nothing for a hidden face, the quad for a drawn one, or the
   * error for a drawn face of a type without a colour.
   */
  function FaceStep(groups: map<byte, Group>, chunk: seq<byte>, x: int, y: int, z: int, v: byte, f: int): Result<map<byte, Group>, MeshError>
    requires |chunk| == SHELL_BYTES && Interior(x, y, z) && 0 <= f < 6 && v in groups
  {
    if !ShouldDrawFace(v, NeighbourVoxel(chunk, x, y, z, f)) then Ok(groups)
    else if !HasColor(v) then Err(ColorNotIterable(v))
    else Ok(groups[v := Emit(groups[v], x, y, z, f, v)])
  }

  /** The `forEach` over the faces after its first `n` turns. */
  function AfterFaces(groups: map<byte, Group>, chunk: seq<byte>, x: int, y: int, z: int, v: byte, n: nat): (r: Result<map<byte, Group>, MeshError>)
    requires |chunk| == SHELL_BYTES && Interior(x, y, z) && n <= 6 && v in groups
    ensures r.Ok? ==> v in r.value
  {
    if n == 0 then Ok(groups)
    else
      var before := AfterFaces(groups, chunk, x, y, z, v, n - 1);
      if before.Err? then before else FaceStep(before.value, chunk, x, y, z, v, n - 1)
  }

  /** The body of the `z` loop for cell `(x, y, z)`: air is skipped; otherwise the type's buffers are fetched or created and the six faces visited. */
  function VisitCell(groups: map<byte, Group>, chunk: seq<byte>, x: int, y: int, z: int): Result<map<byte, Group>, MeshError>
    requires |chunk| == SHELL_BYTES && Interior(x, y, z)
  {
    NeighboursInShell(x, y, z, 0);
    var v := chunk[ShellIndex(x, y, z)];
    if v == 0 then Ok(groups)
    else AfterFaces(groups[v := if v in groups then groups[v] else EMPTY_GROUP], chunk, x, y, z, v, 6)
  }

  // ---------------------------------------------------------------- the order of the loops

  /** The position of interior cell `(x, y, z)` in the loops' order: `x` outermost, `z` innermost. */
  function Order(x: int, y: int, z: int): int
  {
    900 * (x - 1) + 30 * (y - 1) + (z - 1)
  }

  /** The interior cell the loops visit at position `q`. */
  function CellAt(q: int): (c: (int, int, int))
    requires 0 <= q < CELLS
    ensures Interior(c.0, c.1, c.2)
  {
    (1 + q / 900, 1 + q / 30 % 30, 1 + q % 30)
  }

  /** Each interior cell is visited once, at its position. */
  lemma CellAtOrder(x: int, y: int, z: int)
    requires Interior(x, y, z)
    ensures 0 <= Order(x, y, z) < CELLS && CellAt(Order(x, y, z)) == (x, y, z)
  {
    var q := Order(x, y, z);
    var column := 30 * (x - 1) + (y - 1);
    ModUnique(q, 30, column, z - 1);
    ModUnique(column, 30, x - 1, y - 1);
    ModUnique(q, 900, x - 1, 30 * (y - 1) + (z - 1));
    assert q / 30 % 30 == y - 1;
  }

  /** Each position names the cell it visits. */
  lemma OrderOfCell(q: int)
    requires 0 <= q < CELLS
    ensures var c := CellAt(q); Order(c.0, c.1, c.2) == q
  {
    var c := CellAt(q);
    assert q == 900 * (q / 900) + q % 900;
    assert q % 900 == 30 * (q / 30 % 30) + q % 30 by {
      ModUnique(q, 30, 30 * (q / 900) + (q % 900) / 30, (q % 900) % 30);
      ModUnique(q / 30, 30, q / 900, (q % 900) / 30);
    }
  }

  /** The voxel the loops read at position `q`. */
  function VoxelAt(chunk: seq<byte>, q: int): byte
    requires |chunk| == SHELL_BYTES && 0 <= q < CELLS
  {
    var c := CellAt(q);
    NeighboursInShell(c.0, c.1, c.2, 0);
    chunk[ShellIndex(c.0, c.1, c.2)]
  }

  /** The buffers once the loops have visited their first `p` cells, or the error that ended them. */
  function MeshAfter(chunk: seq<byte>, p: nat): Result<map<byte, Group>, MeshError>
    requires |chunk| == SHELL_BYTES && p <= CELLS
  {
    if p == 0 then Ok(map[])
    else
      var before := MeshAfter(chunk, p - 1);
      if before.Err? then before
      else var c := CellAt(p - 1); VisitCell(before.value, chunk, c.0, c.1, c.2)
  }

  // ---------------------------------------------------------------- the result

  /** The arrays of one type after the conversion: `new Uint16Array(indices)` keeps each index modulo 65536. */
  datatype MeshArrays = MeshArrays(positions: seq<real>, normals: seq<int>, indices: seq<int>, colors: seq<real>, uvs: seq<int>)

  /** `new Uint16Array(indices)` for non-negative indices. */
  function Uint16s(s: seq<int>): (r: seq<int>)
    ensures |r| == |s|
  {
    seq(|s|, i requires 0 <= i < |s| => s[i] % UINT16)
  }

  /** The arrays of one group. */
  function Arrays(g: Group): MeshArrays
  {
    MeshArrays(g.positions, g.normals, Uint16s(g.indices), g.colors, g.uvs)
  }

  /** `finalMeshData`: one set of arrays per type that has buffers. */
  function Finalize(groups: map<byte, Group>): (r: map<byte, MeshArrays>)
    ensures r.Keys == groups.Keys
  {
    map t | t in groups :: Arrays(groups[t])
  }

  /** What `generateMeshForChunk_Voxel(chunkData)` returns, or the error it throws. */
  function Mesh(chunk: seq<byte>): Result<map<byte, MeshArrays>, MeshError>
    requires |chunk| == SHELL_BYTES
  {
    var m := MeshAfter(chunk, CELLS);
    if m.Err? then Err(m.error) else Ok(Finalize(m.value))
  }

  // ---------------------------------------------------------------- what the buffers hold

  /** Index `i` of the index buffer: quad `i / 6`, whose four vertices start at `4 · (i / 6)`, in the pattern `[0, 1, 2, 0, 2, 3]`. */
  function QuadIndexAt(i: nat): int
  {
    4 * (i / 6) + [0, 1, 2, 0, 2, 3][i % 6]
  }

  /** Index buffer entries that follow the quad pattern throughout. */
  predicate QuadIndexed(s: seq<int>)
  {
    forall i :: 0 <= i < |s| ==> s[i] == QuadIndexAt(i)
  }

  /** Colour buffer entries that repeat the RGBA colour `c`, once per vertex. */
  predicate ColorRepeated(s: seq<real>, c: seq<real>)
    requires |c| == 4
  {
    forall i :: 0 <= i < |s| ==> s[i] == c[i % 4]
  }

  /** A vertex coordinate of the mesh: a half-integer in `[-0.5, 29.5]`, a voxel corner of the 30³ core. */
  predicate IsHalf(v: real)
  {
    -0.5 <= v <= 29.5 && (v + 0.5).Floor as real == v + 0.5
  }

  /** The buffers of type `t` after `f` drawn faces. */
  predicate Shaped(t: int, g: Group, f: nat)
  {
    && |g.positions| == 12 * f && |g.normals| == 12 * f && |g.uvs| == 8 * f
    && g.indexOffset == 4 * f && |g.indices| == 6 * f && QuadIndexed(g.indices)
    && (if HasColor(t) then |g.colors| == 16 * f && ColorRepeated(g.colors, Color(t)) else f == 0 && g.colors == [])
    && forall i :: 0 <= i < |g.positions| ==> IsHalf(g.positions[i])
  }

  /** The corners of a face of an interior cell are half-integers of the core. */
  lemma {:induction false} CornersHalf(x: int, y: int, z: int, p: seq<int>, k: nat)
    requires Interior(x, y, z) && 3 * k <= |p|
    requires forall i :: 0 <= i < |p| ==> p[i] == 1 || p[i] == -1
    ensures forall i :: 0 <= i < 3 * k ==> IsHalf(Corners(x, y, z, p, k)[i])
  {
    if k > 0 {
      CornersHalf(x, y, z, p, k - 1);
      var a, b, c := 3 * k - 3, 3 * k - 2, 3 * k - 1;
      var s := Corners(x, y, z, p, k);
      assert s[a] + 0.5 == (if p[a] == 1 then x else x - 1) as real;
      assert s[b] + 0.5 == (if p[b] == 1 then y else y - 1) as real;
      assert s[c] + 0.5 == (if p[c] == 1 then z else z - 1) as real;
    }
  }

  lemma FacePositionsHalf(x: int, y: int, z: int, f: int)
    requires Interior(x, y, z) && 0 <= f < 6
    ensures forall i :: 0 <= i < 12 ==> IsHalf(FacePositions(x, y, z, f)[i])
  {
    UnitCorners(f);
    CornersHalf(x, y, z, CubeFace(f).positions, 4);
  }

  /** Appending the next quad's indices keeps the pattern. */
  lemma AppendQuad(s: seq<int>, f: nat)
    requires |s| == 6 * f && QuadIndexed(s)
    ensures QuadIndexed(s + QuadIndices(4 * f))
  {
    var e := s + QuadIndices(4 * f);
    forall i | 6 * f <= i < 6 * f + 6
      ensures e[i] == QuadIndexAt(i)
    {
      ModUnique(i, 6, f, i - 6 * f);
    }
  }

  /** Appending a colour for four more vertices keeps the repetition. */
  lemma AppendColors(s: seq<real>, c: seq<real>, f: nat)
    requires |c| == 4 && |s| == 16 * f && ColorRepeated(s, c)
    ensures ColorRepeated(s + (c + c + c + c), c)
  {
    var e := s + (c + c + c + c);
    forall i | 16 * f <= i < 16 * f + 16
      ensures e[i] == c[i % 4]
    {
      var j := i - 16 * f;
      ModUnique(j, 4, j / 4, j % 4);
      ModUnique(i, 4, 4 * f + j / 4, j % 4);
    }
  }

  /** Appending the corners of a face of an interior cell keeps every coordinate a half-integer of the core. */
  lemma AppendCorners(s: seq<real>, x: int, y: int, z: int, face: int)
    requires Interior(x, y, z) && 0 <= face < 6
    requires forall i :: 0 <= i < |s| ==> IsHalf(s[i])
    ensures var e := s + FacePositions(x, y, z, face); forall i :: 0 <= i < |e| ==> IsHalf(e[i])
  {
    FacePositionsHalf(x, y, z, face);
    var e := s + FacePositions(x, y, z, face);
    forall i | |s| <= i < |e|
      ensures IsHalf(e[i])
    {
      assert e[i] == FacePositions(x, y, z, face)[i - |s|];
    }
  }

  /** A drawn face adds one quad: 12 positions, 12 normals, 6 indices, 16 colours, 8 uvs and 4 to `indexOffset`. */
  lemma EmitShaped(t: int, g: Group, f: nat, x: int, y: int, z: int, face: int)
    requires Shaped(t, g, f) && HasColor(t) && Interior(x, y, z) && 0 <= face < 6
    ensures Shaped(t, Emit(g, x, y, z, face, t), f + 1)
  {
    AppendQuad(g.indices, f);
    AppendColors(g.colors, Color(t), f);
    AppendCorners(g.positions, x, y, z, face);
  }

  /** A new type starts with empty buffers. */
  lemma EmptyShaped(t: int)
    ensures Shaped(t, EMPTY_GROUP, 0)
  {
  }

  /** The voxel of an interior cell. */
  function VoxelOf(chunk: seq<byte>, x: int, y: int, z: int): byte
    requires |chunk| == SHELL_BYTES && Interior(x, y, z)
  {
    NeighboursInShell(x, y, z, 0);
    chunk[ShellIndex(x, y, z)]
  }

  /**
   * The buffers `g` after the first `n` faces of the voxel at `(x, y, z)`
   * have been visited: each drawn face is emitted, when the type has a colour.
   */
  function FacesOf(g: Group, chunk: seq<byte>, x: int, y: int, z: int, n: nat): Group
    requires |chunk| == SHELL_BYTES && Interior(x, y, z) && n <= 6
  {
    if n == 0 then g
    else
      var b := FacesOf(g, chunk, x, y, z, n - 1);
      var v := VoxelOf(chunk, x, y, z);
      if Drawn(chunk, x, y, z, n - 1) && HasColor(v) then Emit(b, x, y, z, n - 1, v) else b
  }

  /**
   * The `forEach` over the faces of a voxel of type `v` touches only the
   * buffers of `v`, which it grows by the drawn faces; a type without a
   * colour fails exactly when one of its faces is drawn.
   */
  lemma {:induction false} AfterFacesIs(groups: map<byte, Group>, chunk: seq<byte>, x: int, y: int, z: int, v: byte, n: nat)
    requires |chunk| == SHELL_BYTES && Interior(x, y, z) && n <= 6 && v in groups && VoxelOf(chunk, x, y, z) == v
    ensures AfterFaces(groups, chunk, x, y, z, v, n)
      == if !HasColor(v) && DrawnUpTo(chunk, x, y, z, n) > 0 then Err(ColorNotIterable(v))
         else Ok(groups[v := FacesOf(groups[v], chunk, x, y, z, n)])
    decreases n
  {
    if n == 0 {
      assert groups[v := groups[v]] == groups;
    } else {
      AfterFacesIs(groups, chunk, x, y, z, v, n - 1);
      var b := FacesOf(groups[v], chunk, x, y, z, n - 1);
      if Drawn(chunk, x, y, z, n - 1) && HasColor(v) {
        assert groups[v := b][v := Emit(b, x, y, z, n - 1, v)] == groups[v := Emit(b, x, y, z, n - 1, v)];
      }
    }
  }

  /** The faces of a voxel whose type has a colour keep its buffers' shape, grown by the faces drawn. */
  lemma {:induction false} FacesOfShaped(g: Group, chunk: seq<byte>, x: int, y: int, z: int, v: byte, n: nat, base: nat)
    requires |chunk| == SHELL_BYTES && Interior(x, y, z) && n <= 6
    requires VoxelOf(chunk, x, y, z) == v && HasColor(v) && Shaped(v, g, base)
    ensures Shaped(v, FacesOf(g, chunk, x, y, z, n), base + DrawnUpTo(chunk, x, y, z, n))
    decreases n
  {
    if n > 0 {
      FacesOfShaped(g, chunk, x, y, z, v, n - 1, base);
      if Drawn(chunk, x, y, z, n - 1) {
        EmitShaped(v, FacesOf(g, chunk, x, y, z, n - 1), base + DrawnUpTo(chunk, x, y, z, n - 1), x, y, z, n - 1);
      }
    }
  }

  /** The faces of a voxel whose type has no colour leave its buffers as they were. */
  lemma {:induction false} FacesOfColourless(g: Group, chunk: seq<byte>, x: int, y: int, z: int, n: nat)
    requires |chunk| == SHELL_BYTES && Interior(x, y, z) && n <= 6 && !HasColor(VoxelOf(chunk, x, y, z))
    ensures FacesOf(g, chunk, x, y, z, n) == g
    decreases n
  {
    if n > 0 {
      FacesOfColourless(g, chunk, x, y, z, n - 1);
    }
  }

  /** The faces the voxel at position `q` draws. */
  function CellFaces(chunk: seq<byte>, q: int): nat
    requires |chunk| == SHELL_BYTES && 0 <= q < CELLS
  {
    var c := CellAt(q);
    DrawnUpTo(chunk, c.0, c.1, c.2, 6)
  }

  /** The voxel at position `q` has a type without a colour and at least one drawn face. */
  predicate FailsAt(chunk: seq<byte>, q: int)
    requires |chunk| == SHELL_BYTES && 0 <= q < CELLS
  {
    !HasColor(VoxelAt(chunk, q)) && CellFaces(chunk, q) > 0
  }

  /** Type `t` occurs among the first `p` voxels the loops visit. */
  ghost predicate Seen(chunk: seq<byte>, p: int, t: int)
    requires |chunk| == SHELL_BYTES && p <= CELLS
  {
    exists q :: 0 <= q < p && VoxelAt(chunk, q) == t
  }

  /** The buffers of type `t` once the loops have visited their first `p` cells. */
  function TypeGroup(chunk: seq<byte>, p: nat, t: int): Group
    requires |chunk| == SHELL_BYTES && p <= CELLS
  {
    if p == 0 then EMPTY_GROUP
    else
      var b := TypeGroup(chunk, p - 1, t);
      var c := CellAt(p - 1);
      if t != 0 && VoxelAt(chunk, p - 1) == t then FacesOf(b, chunk, c.0, c.1, c.2, 6) else b
  }

  /** The faces drawn for voxels of type `t` among the first `p` the loops visit. */
  function FaceCount(chunk: seq<byte>, p: nat, t: int): nat
    requires |chunk| == SHELL_BYTES && p <= CELLS
  {
    if p == 0 then 0
    else FaceCount(chunk, p - 1, t) + (if t != 0 && VoxelAt(chunk, p - 1) == t then CellFaces(chunk, p - 1) else 0)
  }

  /** A type not yet seen has no buffers of its own. */
  lemma {:induction false} UnseenEmpty(chunk: seq<byte>, p: nat, t: int)
    requires |chunk| == SHELL_BYTES && p <= CELLS && (t == 0 || !Seen(chunk, p, t))
    ensures TypeGroup(chunk, p, t) == EMPTY_GROUP
  {
    if p > 0 {
      assert t == 0 || !Seen(chunk, p - 1, t);
      UnseenEmpty(chunk, p - 1, t);
      assert t == 0 || VoxelAt(chunk, p - 1) != t;
    }
  }

  /** A type is seen among the first `p` voxels when it is among the first `p - 1` or is voxel `p - 1`. */
  lemma SeenStep(chunk: seq<byte>, p: nat, t: int)
    requires |chunk| == SHELL_BYTES && 0 < p <= CELLS
    ensures Seen(chunk, p, t) <==> Seen(chunk, p - 1, t) || VoxelAt(chunk, p - 1) == t
  {
    if Seen(chunk, p, t) && VoxelAt(chunk, p - 1) != t {
      var q :| 0 <= q < p && VoxelAt(chunk, q) == t;
      assert q < p - 1;
    }
  }

  /** A cell among the first `p` draws a face for a type without a colour. */
  ghost predicate FailsBefore(chunk: seq<byte>, p: int)
    requires |chunk| == SHELL_BYTES && p <= CELLS
  {
    exists q :: 0 <= q < p && FailsAt(chunk, q)
  }

  lemma FailsBeforeStep(chunk: seq<byte>, p: nat)
    requires |chunk| == SHELL_BYTES && 0 < p <= CELLS
    ensures FailsBefore(chunk, p) <==> FailsBefore(chunk, p - 1) || FailsAt(chunk, p - 1)
  {
    if FailsBefore(chunk, p) && !FailsAt(chunk, p - 1) {
      var q :| 0 <= q < p && FailsAt(chunk, q);
      assert q < p - 1;
    }
  }

  /** `groups` holds buffers for exactly the non-air types among the first `p` voxels, each those of that type alone. */
  ghost predicate Tracks(groups: map<byte, Group>, chunk: seq<byte>, p: nat)
    requires |chunk| == SHELL_BYTES && p <= CELLS
  {
    && (forall t: byte :: t in groups <==> t != 0 && Seen(chunk, p, t))
    && (forall t :: t in groups ==> groups[t] == TypeGroup(chunk, p, t))
  }

  /** The buffers a non-air cell's faces start from: those its type has so far, or fresh ones. */
  lemma VisitCellStart(groups: map<byte, Group>, chunk: seq<byte>, p: nat)
    requires |chunk| == SHELL_BYTES && 0 < p <= CELLS && Tracks(groups, chunk, p - 1) && VoxelAt(chunk, p - 1) != 0
    ensures var c := CellAt(p - 1); var v := VoxelAt(chunk, p - 1);
      && VoxelOf(chunk, c.0, c.1, c.2) == v
      && VisitCell(groups, chunk, c.0, c.1, c.2) == AfterFaces(groups[v := if v in groups then groups[v] else EMPTY_GROUP], chunk, c.0, c.1, c.2, v, 6)
      && (if v in groups then groups[v] else EMPTY_GROUP) == TypeGroup(chunk, p - 1, v)
  {
    var v := VoxelAt(chunk, p - 1);
    if v !in groups {
      UnseenEmpty(chunk, p - 1, v);
    }
  }

  /** One cell visited fails exactly when it draws a face for a type without a colour. */
  lemma VisitCellFails(groups: map<byte, Group>, chunk: seq<byte>, p: nat)
    requires |chunk| == SHELL_BYTES && 0 < p <= CELLS && Tracks(groups, chunk, p - 1)
    ensures var c := CellAt(p - 1); var r := VisitCell(groups, chunk, c.0, c.1, c.2); var v := VoxelAt(chunk, p - 1);
      && (r.Err? <==> FailsAt(chunk, p - 1))
      && (r.Err? ==> r.error == ColorNotIterable(v) && !HasColor(v))
  {
    var c := CellAt(p - 1);
    var v := VoxelAt(chunk, p - 1);
    if v != 0 {
      VisitCellStart(groups, chunk, p);
      AfterFacesIs(groups[v := if v in groups then groups[v] else EMPTY_GROUP], chunk, c.0, c.1, c.2, v, 6);
    }
  }

  /** One cell visited without failing: air changes nothing; otherwise the cell's type gets its drawn faces. */
  lemma VisitCellTracks(groups: map<byte, Group>, chunk: seq<byte>, p: nat)
    requires |chunk| == SHELL_BYTES && 0 < p <= CELLS && Tracks(groups, chunk, p - 1)
    ensures var c := CellAt(p - 1); var r := VisitCell(groups, chunk, c.0, c.1, c.2);
      r.Ok? ==> Tracks(r.value, chunk, p)
  {
    var c := CellAt(p - 1);
    var v := VoxelAt(chunk, p - 1);
    if v != 0 {
      VisitCellStart(groups, chunk, p);
      AfterFacesIs(groups[v := if v in groups then groups[v] else EMPTY_GROUP], chunk, c.0, c.1, c.2, v, 6);
    }
    var r := VisitCell(groups, chunk, c.0, c.1, c.2);
    if r.Ok? {
      forall t: byte
        ensures t in r.value <==> t != 0 && Seen(chunk, p, t)
      {
        SeenStep(chunk, p, t);
      }
    }
  }

  /** The loops over the first `p` cells fail exactly when one of those cells draws a face for a type without a colour. */
  lemma {:induction false} MeshAfterFails(chunk: seq<byte>, p: nat)
    requires |chunk| == SHELL_BYTES && p <= CELLS
    ensures var m := MeshAfter(chunk, p);
      && (m.Err? <==> FailsBefore(chunk, p))
      && (m.Err? ==> !HasColor(m.error.voxelType))
  {
    if p > 0 {
      MeshAfterFails(chunk, p - 1);
      MeshAfterTracks(chunk, p - 1);
      FailsBeforeStep(chunk, p);
      var before := MeshAfter(chunk, p - 1);
      if before.Ok? {
        VisitCellFails(before.value, chunk, p);
      }
    }
  }

  /** Unless they fail, the loops over the first `p` cells hold buffers for exactly the non-air types seen, each those of that type alone. */
  lemma {:induction false} MeshAfterTracks(chunk: seq<byte>, p: nat)
    requires |chunk| == SHELL_BYTES && p <= CELLS
    ensures var m := MeshAfter(chunk, p); m.Ok? ==> Tracks(m.value, chunk, p)
  {
    if p > 0 {
      MeshAfterTracks(chunk, p - 1);
      var before := MeshAfter(chunk, p - 1);
      if before.Ok? {
        VisitCellTracks(before.value, chunk, p);
      }
    }
  }

  /** While no cell has failed, the buffers of each type hold one quad per face drawn for that type. */
  lemma {:induction false} TypeGroupShaped(chunk: seq<byte>, p: nat, t: int)
    requires |chunk| == SHELL_BYTES && p <= CELLS && !FailsBefore(chunk, p)
    ensures Shaped(t, TypeGroup(chunk, p, t), FaceCount(chunk, p, t))
  {
    if p == 0 {
      EmptyShaped(t);
    } else {
      FailsBeforeStep(chunk, p);
      TypeGroupShaped(chunk, p - 1, t);
      var v := VoxelAt(chunk, p - 1);
      if t != 0 && v == t {
        var c := CellAt(p - 1);
        assert VoxelOf(chunk, c.0, c.1, c.2) == v;
        if HasColor(v) {
          FacesOfShaped(TypeGroup(chunk, p - 1, t), chunk, c.0, c.1, c.2, v, 6, FaceCount(chunk, p - 1, t));
        } else {
          FacesOfColourless(TypeGroup(chunk, p - 1, t), chunk, c.0, c.1, c.2, 6);
        }
      }
    }
  }

  /** Some interior cell draws a face for a type without a colour. */
  ghost predicate DrawsColourless(chunk: seq<byte>)
    requires |chunk| == SHELL_BYTES
  {
    exists x, y, z :: Interior(x, y, z) && !HasColor(VoxelOf(chunk, x, y, z)) && DrawnUpTo(chunk, x, y, z, 6) > 0
  }

  /** Some interior cell holds type `t`. */
  ghost predicate Occurs(chunk: seq<byte>, t: int)
    requires |chunk| == SHELL_BYTES
  {
    exists x, y, z :: Interior(x, y, z) && VoxelOf(chunk, x, y, z) == t
  }

  /** The failing cells, by position and by coordinates, are the same. */
  lemma FailsBeforeAll(chunk: seq<byte>)
    requires |chunk| == SHELL_BYTES
    ensures FailsBefore(chunk, CELLS) <==> DrawsColourless(chunk)
  {
    if FailsBefore(chunk, CELLS) {
      var q :| 0 <= q < CELLS && FailsAt(chunk, q);
      var c := CellAt(q);
      assert Interior(c.0, c.1, c.2) && !HasColor(VoxelOf(chunk, c.0, c.1, c.2)) && DrawnUpTo(chunk, c.0, c.1, c.2, 6) > 0;
    }
    if DrawsColourless(chunk) {
      var x, y, z :| Interior(x, y, z) && !HasColor(VoxelOf(chunk, x, y, z)) && DrawnUpTo(chunk, x, y, z, 6) > 0;
      CellAtOrder(x, y, z);
      assert FailsAt(chunk, Order(x, y, z));
    }
  }

  /** The types seen, by position and by coordinates, are the same. */
  lemma SeenAll(chunk: seq<byte>, t: int)
    requires |chunk| == SHELL_BYTES
    ensures Seen(chunk, CELLS, t) <==> Occurs(chunk, t)
  {
    if Seen(chunk, CELLS, t) {
      var q :| 0 <= q < CELLS && VoxelAt(chunk, q) == t;
      var c := CellAt(q);
      assert Interior(c.0, c.1, c.2) && VoxelOf(chunk, c.0, c.1, c.2) == t;
    }
    if Occurs(chunk, t) {
      var x, y, z :| Interior(x, y, z) && VoxelOf(chunk, x, y, z) == t;
      CellAtOrder(x, y, z);
      assert VoxelAt(chunk, Order(x, y, z)) == t;
    }
  }

  /**
   * `generateMeshForChunk_Voxel` throws exactly when some interior voxel whose
   * type has no colour has a visible face, and the error names such a type.
   */
  lemma MeshFails(chunk: seq<byte>)
    requires |chunk| == SHELL_BYTES
    ensures Mesh(chunk).Err? <==> DrawsColourless(chunk)
    ensures Mesh(chunk).Err? ==> !HasColor(Mesh(chunk).error.voxelType)
  {
    MeshAfterFails(chunk, CELLS);
    FailsBeforeAll(chunk);
  }

  /** The mesh has arrays for exactly the non-air types among the interior voxels. */
  lemma MeshTypes(chunk: seq<byte>, t: byte)
    requires |chunk| == SHELL_BYTES && Mesh(chunk).Ok?
    ensures t in Mesh(chunk).value <==> t != 0 && Occurs(chunk, t)
  {
    MeshAfterTracks(chunk, CELLS);
    SeenAll(chunk, t);
  }

  /**
   * The arrays of type `t` hold one quad per face drawn for a voxel of that
   * type, `F` of them: `12F` positions, each a voxel corner of the core,
   * `12F` normals, `8F` uvs, the type's colour once for each of the `4F`
   * vertices (a type without a colour draws nothing), and `6F` indices, quad `k` using vertices `4k` to `4k + 3`,
   * each kept modulo 65536.
   */
  lemma MeshBuffers(chunk: seq<byte>, t: byte)
    requires |chunk| == SHELL_BYTES && Mesh(chunk).Ok? && t in Mesh(chunk).value
    ensures var a := Mesh(chunk).value[t]; var f := FaceCount(chunk, CELLS, t);
      && |a.positions| == 12 * f && (forall i :: 0 <= i < |a.positions| ==> IsHalf(a.positions[i]))
      && |a.normals| == 12 * f && |a.uvs| == 8 * f
      && (if HasColor(t) then |a.colors| == 16 * f && ColorRepeated(a.colors, Color(t)) else f == 0 && a.colors == [])
      && |a.indices| == 6 * f && forall i :: 0 <= i < |a.indices| ==> a.indices[i] == QuadIndexAt(i) % UINT16
  {
    MeshAfterFails(chunk, CELLS);
    MeshAfterTracks(chunk, CELLS);
    TypeGroupShaped(chunk, CELLS, t);
    MeshTypes(chunk, t);
  }

  /** The indices stay below `4F` for `F` faces, so `Uint16Array` keeps them all while `F <= 16384`. */
  lemma IndicesFit(f: nat, i: nat)
    requires i < 6 * f
    ensures 0 <= QuadIndexAt(i) < 4 * f
    ensures f <= 16384 ==> QuadIndexAt(i) % UINT16 == QuadIndexAt(i)
  {
    assert i / 6 < f;
  }

  /** With more than 16384 faces of one type the first index of quad 16384 wraps to 0. */
  lemma IndicesWrap(f: nat)
    requires f > 16384
    ensures 6 * 16384 < 6 * f && QuadIndexAt(6 * 16384) == UINT16 && QuadIndexAt(6 * 16384) % UINT16 == 0
  {
  }

  // ---------------------------------------------------------------- the loops

  /** `c` repeated `k` times. */
  function Times(c: seq<real>, k: nat): (r: seq<real>)
    ensures |r| == k * |c|
  {
    if k == 0 then [] else Times(c, k - 1) + c
  }

  lemma TimesFour(c: seq<real>)
    ensures Times(c, 4) == c + c + c + c
  {
    assert Times(c, 1) == [] + c == c;
    assert Times(c, 2) == c + c;
    assert Times(c, 3) == c + c + c;
  }

  /** The `for (i = 0; i < 12; i += 3)` loop: the face's corners, scaled by a half and moved to cell `(x, y, z)`. */
  method PushCorners(positions: seq<real>, x: int, y: int, z: int, corners: seq<int>) returns (r: seq<real>)
    requires |corners| == 12
    ensures r == positions + Corners(x, y, z, corners, 4)
  {
    r := positions;
    var i := 0;
    ghost var k := 0;
    while i < 12
      invariant 0 <= k <= 4 && i == 3 * k
      invariant r == positions + Corners(x, y, z, corners, k)
    {
      r := r + [x as real - 1.0 + corners[i] as real * 0.5];
      r := r + [y as real - 1.0 + corners[i + 1] as real * 0.5];
      r := r + [z as real - 1.0 + corners[i + 2] as real * 0.5];
      assert r == positions + Corners(x, y, z, corners, k) + Corner(x, y, z, corners, k);
      i := i + 3;
      k := k + 1;
    }
  }

  /** The `for (i = 0; i < 4; i++)` loop pushing `...VoxelColors[v]`, which throws when `v` has no colour. */
  method PushColors(colors: seq<real>, v: byte) returns (r: Result<seq<real>, MeshError>)
    ensures r == if HasColor(v) then Ok(colors + QuadColors(v)) else Err(ColorNotIterable(v))
  {
    var acc := colors;
    var k := 0;
    while k < 4
      invariant 0 <= k <= 4
      invariant k > 0 ==> HasColor(v)
      invariant HasColor(v) ==> acc == colors + Times(Color(v), k)
    {
      if !HasColor(v) {
        return Err(ColorNotIterable(v));
      }
      acc := acc + Color(v);
      k := k + 1;
    }
    TimesFour(Color(v));
    r := Ok(acc);
  }

  /**
   * The body of `if (shouldDrawFace)`: pushes the face's positions, normals
   * and indices, advances `indexOffset`, pushes the colour once per vertex
   * and the uvs. For a type without a colour the first colour push throws.
   */
  method EmitFace(g: Group, x: int, y: int, z: int, f: int, v: byte) returns (r: Result<Group, MeshError>)
    requires 0 <= f < 6
    ensures r == if HasColor(v) then Ok(Emit(g, x, y, z, f, v)) else Err(ColorNotIterable(v))
  {
    var faceData := CubeFace(f);
    var positions := PushCorners(g.positions, x, y, z, faceData.positions);
    var normals := g.normals + faceData.normals;
    var o := g.indexOffset;
    var indices := g.indices + [o + 0] + [o + 1] + [o + 2] + [o + 0] + [o + 2] + [o + 3];
    assert indices == g.indices + QuadIndices(o);
    var indexOffset := o + 4;
    var colors := PushColors(g.colors, v);
    if colors.Err? {
      return Err(colors.error);
    }
    var uvs := g.uvs + faceData.uvs;
    r := Ok(Group(positions, normals, indices, colors.value, uvs, indexOffset));
  }

  /** Once the `forEach` over the faces has thrown, the later faces are never visited. */
  lemma {:induction false} AfterFacesErr(groups: map<byte, Group>, chunk: seq<byte>, x: int, y: int, z: int, v: byte, n: nat, m: nat)
    requires |chunk| == SHELL_BYTES && Interior(x, y, z) && n <= m <= 6 && v in groups
    requires AfterFaces(groups, chunk, x, y, z, v, n).Err?
    ensures AfterFaces(groups, chunk, x, y, z, v, m) == AfterFaces(groups, chunk, x, y, z, v, n)
    decreases m
  {
    if m > n {
      AfterFacesErr(groups, chunk, x, y, z, v, n, m - 1);
    }
  }

  /** Once the loops have thrown, no later cell is visited. */
  lemma {:induction false} MeshAfterErr(chunk: seq<byte>, p: nat, m: nat)
    requires |chunk| == SHELL_BYTES && p <= m <= CELLS && MeshAfter(chunk, p).Err?
    ensures MeshAfter(chunk, m) == MeshAfter(chunk, p)
    decreases m
  {
    if m > p {
      MeshAfterErr(chunk, p, m - 1);
    }
  }

  /**
   * One turn of `neighborOffsets.forEach(...)`: the face rule on the voxel
   * and its neighbour, then the face emitted into the buffers of `v`, which
   * `currentMeshData` refers to.
   */
  method VisitFace(chunkData: seq<byte>, meshData: map<byte, Group>, x: int, y: int, z: int, v: byte, faceIndex: int) returns (r: Result<map<byte, Group>, MeshError>)
    requires |chunkData| == SHELL_BYTES && Interior(x, y, z) && 0 <= faceIndex < 6 && v in meshData
    requires VoxelOf(chunkData, x, y, z) == v
    ensures r == FaceStep(meshData, chunkData, x, y, z, v, faceIndex)
  {
    var offset := Offset(faceIndex);
    NeighboursInShell(x, y, z, faceIndex);
    var neighborVoxel := chunkData[ShellIndex(x + offset.0, y + offset.1, z + offset.2)];
    var isNeighborTransparent := Transparent(neighborVoxel);
    var isVoxelTransparent := Transparent(v);
    var shouldDrawFace := (isVoxelTransparent && neighborVoxel == 0) || (!isVoxelTransparent && (neighborVoxel == 0 || isNeighborTransparent));
    if !shouldDrawFace {
      return Ok(meshData);
    }
    var emitted := EmitFace(meshData[v], x, y, z, faceIndex, v);
    if emitted.Err? {
      return Err(emitted.error);
    }
    r := Ok(meshData[v := emitted.value]);
  }

  /** `neighborOffsets.forEach(...)` for the voxel of type `v` at `(x, y, z)`; a throw ends it. */
  method VisitFaces(chunkData: seq<byte>, groups: map<byte, Group>, x: int, y: int, z: int, v: byte) returns (r: Result<map<byte, Group>, MeshError>)
    requires |chunkData| == SHELL_BYTES && Interior(x, y, z) && v in groups && VoxelOf(chunkData, x, y, z) == v
    ensures r == AfterFaces(groups, chunkData, x, y, z, v, 6)
  {
    var meshData := groups;
    var faceIndex := 0;
    while faceIndex < 6
      invariant 0 <= faceIndex <= 6 && v in meshData
      invariant AfterFaces(groups, chunkData, x, y, z, v, faceIndex) == Ok(meshData)
    {
      var step := VisitFace(chunkData, meshData, x, y, z, v, faceIndex);
      if step.Err? {
        AfterFacesErr(groups, chunkData, x, y, z, v, faceIndex + 1, 6);
        return step;
      }
      meshData := step.value;
      faceIndex := faceIndex + 1;
    }
    r := Ok(meshData);
  }

  /** The body of the `z` loop: air is skipped; otherwise `getMeshData(voxel)` and the faces. */
  method VisitVoxel(chunkData: seq<byte>, groups: map<byte, Group>, x: int, y: int, z: int) returns (r: Result<map<byte, Group>, MeshError>)
    requires |chunkData| == SHELL_BYTES && Interior(x, y, z)
    ensures r == VisitCell(groups, chunkData, x, y, z)
  {
    NeighboursInShell(x, y, z, 0);
    var voxel := chunkData[ShellIndex(x, y, z)];
    if voxel == 0 {
      return Ok(groups);
    }
    var meshDataByVoxelType := groups;
    if voxel !in meshDataByVoxelType {
      meshDataByVoxelType := meshDataByVoxelType[voxel := EMPTY_GROUP];
    } else {
      assert meshDataByVoxelType == groups[voxel := groups[voxel]];
    }
    r := VisitFaces(chunkData, meshDataByVoxelType, x, y, z, voxel);
  }

  /** One more cell: the fold up to `p + 1` visits, on the fold up to `p`, the cell whose position is `p`. */
  lemma MeshAfterNext(chunk: seq<byte>, x: int, y: int, z: int, p: nat)
    requires |chunk| == SHELL_BYTES && Interior(x, y, z) && p == Order(x, y, z) && MeshAfter(chunk, p).Ok?
    ensures p < CELLS && MeshAfter(chunk, p + 1) == VisitCell(MeshAfter(chunk, p).value, chunk, x, y, z)
  {
    CellAtOrder(x, y, z);
    assert CellAt(p) == (x, y, z);
  }

  /** The loops' next cell after position `q` is `(x, y, z)` when `q` is its position. */
  lemma MeshAfterStep(chunk: seq<byte>, x: int, y: int, z: int, q: int, m: nat)
    requires |chunk| == SHELL_BYTES && Interior(x, y, z) && q == Order(x, y, z) && q < m <= CELLS && MeshAfter(chunk, q).Ok?
    ensures var visited := VisitCell(MeshAfter(chunk, q).value, chunk, x, y, z);
      && MeshAfter(chunk, q + 1) == visited
      && (visited.Err? ==> MeshAfter(chunk, m) == visited)
  {
    MeshAfterNext(chunk, x, y, z, q);
    var visited := VisitCell(MeshAfter(chunk, q).value, chunk, x, y, z);
    if visited.Err? {
      MeshAfterErr(chunk, q + 1, m);
    }
  }

  /** The `z` loop of column `(x, y)`: cells `Order(x, y, 1)` to `Order(x, y, 30)`. */
  method MeshColumn(chunkData: seq<byte>, groups: map<byte, Group>, x: int, y: int) returns (r: Result<map<byte, Group>, MeshError>)
    requires |chunkData| == SHELL_BYTES && 1 <= x < 31 && 1 <= y < 31
    requires MeshAfter(chunkData, Order(x, y, 1)) == Ok(groups)
    ensures r == MeshAfter(chunkData, Order(x, y, 1) + 30)
  {
    var meshData := groups;
    var z := 1;
    ghost var q := Order(x, y, 1);
    while z < 31
      invariant 1 <= z <= 31 && q == Order(x, y, 1) + (z - 1)
      invariant MeshAfter(chunkData, q) == Ok(meshData)
    {
      MeshAfterStep(chunkData, x, y, z, q, Order(x, y, 1) + 30);
      var visited := VisitVoxel(chunkData, meshData, x, y, z);
      if visited.Err? {
        return visited;
      }
      meshData := visited.value;
      z := z + 1;
      q := q + 1;
    }
    r := Ok(meshData);
  }

  /** The `y` loop of slab `x`: cells `900 · (x − 1)` to `900 · x − 1`. */
  method MeshSlab(chunkData: seq<byte>, groups: map<byte, Group>, x: int) returns (r: Result<map<byte, Group>, MeshError>)
    requires |chunkData| == SHELL_BYTES && 1 <= x < 31
    requires MeshAfter(chunkData, 900 * (x - 1)) == Ok(groups)
    ensures r == MeshAfter(chunkData, 900 * x)
  {
    var meshData := groups;
    var y := 1;
    ghost var q := 900 * (x - 1);
    while y < 31
      invariant 1 <= y <= 31 && q == 900 * (x - 1) + 30 * (y - 1)
      invariant MeshAfter(chunkData, q) == Ok(meshData)
    {
      assert Order(x, y, 1) == q;
      var column := MeshColumn(chunkData, meshData, x, y);
      if column.Err? {
        MeshAfterErr(chunkData, q + 30, 900 * x);
        return column;
      }
      meshData := column.value;
      y := y + 1;
      q := q + 30;
    }
    r := Ok(meshData);
  }

  /** `new Uint16Array(indices)`. */
  method ToUint16Array(indices: seq<int>) returns (r: seq<int>)
    ensures r == Uint16s(indices)
  {
    r := [];
    var i := 0;
    while i < |indices|
      invariant 0 <= i <= |indices|
      invariant r == Uint16s(indices[..i])
    {
      r := r + [indices[i] % UINT16];
      i := i + 1;
    }
    assert indices[..i] == indices;
  }

  /** `finalMeshData`: a `for...in` over the types with buffers, which visits integer keys in ascending order. */
  method FinalizeGroups(groups: map<byte, Group>) returns (r: map<byte, MeshArrays>)
    ensures r == Finalize(groups)
  {
    r := map[];
    var voxelType := 0;
    while voxelType < 256
      invariant 0 <= voxelType <= 256
      invariant r == map t | t in groups && t < voxelType :: Arrays(groups[t])
    {
      if voxelType as byte in groups {
        var g := groups[voxelType as byte];
        var indices := ToUint16Array(g.indices);
        r := r[voxelType as byte := MeshArrays(g.positions, g.normals, indices, g.colors, g.uvs)];
      }
      voxelType := voxelType + 1;
    }
  }

  /**
   * `generateMeshForChunk_Voxel(chunkData)`: the `x`, `y`, `z` loops over the
   * interior cells, then the conversion to typed arrays; or the error the
   * loops throw.
   */
  method GenerateMeshForChunkVoxel(chunkData: seq<byte>) returns (r: Result<map<byte, MeshArrays>, MeshError>)
    requires |chunkData| == SHELL_BYTES
    ensures r == Mesh(chunkData)
  {
    var meshDataByVoxelType: map<byte, Group> := map[];
    var x := 1;
    ghost var q := 0;
    while x < 31
      invariant 1 <= x <= 31 && q == 900 * (x - 1)
      invariant MeshAfter(chunkData, q) == Ok(meshDataByVoxelType)
    {
      var slab := MeshSlab(chunkData, meshDataByVoxelType, x);
      if slab.Err? {
        MeshAfterErr(chunkData, q + 900, CELLS);
        return Err(slab.error);
      }
      meshDataByVoxelType := slab.value;
      x := x + 1;
      q := q + 900;
    }
    var finalMeshData := FinalizeGroups(meshDataByVoxelType);
    r := Ok(finalMeshData);
  }
}
