/**
 * The dual contouring skeleton of the octree stack
 * (app/meshing/DualContourning.js).
 *
 * The mesher walks the cells of a chunk's sample grid. A cell whose eight
 * corners are neither all empty nor all solid gets one vertex; the vertex's
 * material is the most frequent of the materials found along the cell's
 * selected edges. Positions come from a floating-point average of edge
 * crossings and are a parameter of this model; every normal is the fixed
 * placeholder (0.5, 0.5, 0.5), and the triangulation pass adds no index.
 */
module DualContouring {
  import opened Wrappers
  import opened JsMap
  import Palette
  import OctreeConfig
  import opened JsNumbers

  // ---------------------------------------------------------------- tables and grid

  /** `VCT`: the offsets of the eight corners of a cell. */
  const VCT: seq<(nat, nat, nat)> :=
    [(0, 0, 0), (1, 0, 0), (0, 1, 0), (1, 1, 0), (0, 0, 1), (1, 0, 1), (0, 1, 1), (1, 1, 1)]

  /** `EIT`: the two corners of each of the twelve edges of a cell. */
  const EIT: seq<(nat, nat)> :=
    [(0, 1), (1, 3), (3, 2), (2, 0), (4, 5), (5, 7), (7, 6), (6, 4), (0, 4), (1, 5), (3, 7), (2, 6)]

  /**
   * The sample grid of one chunk: `resolution` samples per side of a density
   * and a material id, indexed `x + y * resolution + z * resolution²`.
   */
  datatype Grid = Grid(density: seq<real>, material: seq<int>, resolution: nat)

  /** The grid has at least one sample per side and both arrays cover every sample. */
  predicate WellSized(g: Grid)
  {
    g.resolution >= 1 &&
    |g.density| >= Cube(g.resolution) &&
    |g.material| >= Cube(g.resolution)
  }

  /** `n ** 3`. */
  function Cube(n: nat): nat
  {
    n * n * n
  }

  /** The cells of the grid: one fewer per side than the samples. */
  function NumVoxels(g: Grid): int
  {
    g.resolution - 1
  }

  /** `(x, y, z)` is a cell of the grid. */
  predicate IsCell(g: Grid, x: int, y: int, z: int)
  {
    WellSized(g) && 0 <= x < NumVoxels(g) && 0 <= y < NumVoxels(g) && 0 <= z < NumVoxels(g)
  }

  /** A sample inside the grid has an index inside the arrays. */
  lemma GridIndexBound(res: nat, a: nat, b: nat, c: nat)
    requires a < res && b < res && c < res
    ensures 0 <= a + b * res + c * res * res < Cube(res)
  {
    var r2 := res * res;
    MulLe(0, b, res);
    MulLe(0, c, r2);
    MulLe(b, res - 1, res);
    MulLe(c, res - 1, r2);
    assert (res - 1) * res == r2 - res;
    assert (res - 1) * r2 == r2 * res - r2;
    assert c * res * res == c * r2;
    assert Cube(res) == r2 * res;
  }

  lemma MulLe(a: nat, b: nat, c: nat)
    requires a <= b
    ensures a * c <= b * c
  {
  }

  /** The sample index of corner `v` of cell `(x, y, z)`. */
  function CornerIndex(g: Grid, x: int, y: int, z: int, v: nat): (j: nat)
    requires IsCell(g, x, y, z) && v < 8
    ensures j < |g.density| && j < |g.material|
  {
    var (dx, dy, dz) := VCT[v];
    GridIndexBound(g.resolution, x + dx, y + dy, z + dz);
    (x + dx) + (y + dy) * g.resolution + (z + dz) * g.resolution * g.resolution
  }

  /** Corner `v` of the cell is solid: its density is positive. */
  predicate CornerSolid(g: Grid, x: int, y: int, z: int, v: nat)
    requires IsCell(g, x, y, z) && v < 8
  {
    g.density[CornerIndex(g, x, y, z, v)] > 0.0
  }

  // ---------------------------------------------------------------- the cell case

  /** `1 << i` on 32 bits. */
  function Bit(i: nat): bv32
    requires i < 32
  {
    (1 as bv32) << i
  }

  /** Which corners of the cell are solid, corner by corner. */
  function Corners(g: Grid, x: int, y: int, z: int): (solid: seq<bool>)
    requires IsCell(g, x, y, z)
    ensures |solid| == 8
    ensures forall v :: 0 <= v < 8 ==> solid[v] == CornerSolid(g, x, y, z, v)
  {
    seq(8, v requires 0 <= v < 8 => CornerSolid(g, x, y, z, v))
  }

  /** `cellCase |= (1 << i)` when corner `i` is solid. */
  function CaseStep(c: bv32, solid: bool, i: nat): bv32
    requires i < 32
  {
    if solid then c | Bit(i) else c
  }

  /** The case built from the first `k` corners: bit `v` set for each solid corner `v`. */
  function CaseUpTo(solid: seq<bool>, k: nat): bv32
    requires k <= |solid| <= 8
  {
    if k == 0 then 0 else CaseStep(CaseUpTo(solid, k - 1), solid[k - 1], k - 1)
  }

  /** Setting bit `i` of a case sets that bit and keeps the others. */
  lemma OrBit(c: bv32, i: nat)
    requires i < 8
    ensures forall j :: 0 <= j < 32 ==> ((c | Bit(i)) & Bit(j) != 0 <==> j == i || c & Bit(j) != 0)
    ensures c & 0xFFFF_FF00 == 0 ==> (c | Bit(i)) & 0xFFFF_FF00 == 0
  {
  }

  /** The case of a cell, from all eight corners. */
  function CellCase(g: Grid, x: int, y: int, z: int): bv32
    requires IsCell(g, x, y, z)
  {
    CaseUpTo(Corners(g, x, y, z), 8)
  }

  /** Bit `i` of the case is set exactly for the solid corners among the first `k`; no bit above 7 is set. */
  lemma {:induction false} CaseUpToBits(solid: seq<bool>, k: nat)
    requires k <= |solid| <= 8
    ensures forall i :: 0 <= i < 32 ==> (CaseUpTo(solid, k) & Bit(i) != 0 <==> i < k && solid[i])
    ensures CaseUpTo(solid, k) & 0xFFFF_FF00 == 0
  {
    if k > 0 {
      CaseUpToBits(solid, k - 1);
      OrBit(CaseUpTo(solid, k - 1), k - 1);
    }
  }

  /** The case has bit `i` set exactly when corner `i` is solid, so it lies in [0, 256). */
  lemma CellCaseBits(g: Grid, x: int, y: int, z: int)
    requires IsCell(g, x, y, z)
    ensures forall i :: 0 <= i < 32 ==> (CellCase(g, x, y, z) & Bit(i) != 0 <==> i < 8 && CornerSolid(g, x, y, z, i))
    ensures CellCase(g, x, y, z) < 256
  {
    CaseUpToBits(Corners(g, x, y, z), 8);
    LowByte(CellCase(g, x, y, z));
  }

  lemma LowByte(c: bv32)
    requires c & 0xFFFF_FF00 == 0
    ensures c < 256
  {
  }

  /** A cell is mixed when its corners are neither all empty nor all solid. */
  predicate Mixed(g: Grid, x: int, y: int, z: int)
    requires IsCell(g, x, y, z)
  {
    CellCase(g, x, y, z) != 0 && CellCase(g, x, y, z) != 255
  }

  /** A cell is mixed exactly when it has a solid corner and a non-solid one. */
  lemma MixedCorners(g: Grid, x: int, y: int, z: int, i: nat, j: nat)
    requires IsCell(g, x, y, z) && i < 8 && j < 8
    requires CornerSolid(g, x, y, z, i) && !CornerSolid(g, x, y, z, j)
    ensures Mixed(g, x, y, z)
  {
    CellCaseBits(g, x, y, z);
    assert CellCase(g, x, y, z) & Bit(i) != 0;
    assert CellCase(g, x, y, z) & Bit(j) == 0;
    assert (255 as bv32) & Bit(j) != 0;
  }

  /** With no solid corner among the first `k`, the case is empty. */
  lemma {:induction false} NoSolidNoCase(solid: seq<bool>, k: nat)
    requires k <= |solid| <= 8
    ensures (forall i :: 0 <= i < k ==> !solid[i]) ==> CaseUpTo(solid, k) == 0
  {
    if k > 0 {
      NoSolidNoCase(solid, k - 1);
    }
  }

  // ---------------------------------------------------------------- the material vote

  /** The sample indices `index0` and `index1` of the two ends of edge `e` of the cell. */
  function EdgeEnds(g: Grid, x: int, y: int, z: int, e: nat): (ends: (nat, nat))
    requires IsCell(g, x, y, z) && e < 12
    ensures ends.0 < |g.density| && ends.0 < |g.material|
    ensures ends.1 < |g.density| && ends.1 < |g.material|
  {
    (CornerIndex(g, x, y, z, EIT[e].0), CornerIndex(g, x, y, z, EIT[e].1))
  }

  /** The material an edge contributes: the one at its denser endpoint, the second endpoint on a tie. */
  function EdgeMaterial(g: Grid, x: int, y: int, z: int, e: nat): int
    requires IsCell(g, x, y, z) && e < 12
  {
    var (i0, i1) := EdgeEnds(g, x, y, z, e);
    if g.density[i0] > g.density[i1] then g.material[i0] else g.material[i1]
  }

  /** The materials of the selected edges among the first `k`, in edge order; edge `e` is selected when bit `e` of `c` is set. */
  function EdgeMaterials(g: Grid, x: int, y: int, z: int, c: bv32, k: nat): (ms: seq<int>)
    requires IsCell(g, x, y, z) && k <= 12
    ensures |ms| <= k
  {
    if k == 0 then []
    else EdgeMaterials(g, x, y, z, c, k - 1) + (if c & Bit(k - 1) != 0 then [EdgeMaterial(g, x, y, z, k - 1)] else [])
  }

  /** When no edge among the first `k` is selected, no bit below `k` is set. */
  lemma {:induction false} NoSelectedEdge(g: Grid, x: int, y: int, z: int, c: bv32, k: nat)
    requires IsCell(g, x, y, z) && k <= 12
    ensures |EdgeMaterials(g, x, y, z, c, k)| == 0 ==> forall i :: 0 <= i < k ==> c & Bit(i) == 0
  {
    if k > 0 {
      NoSelectedEdge(g, x, y, z, c, k - 1);
    }
  }

  /** Edges 8 to 11 never contribute: the case of a cell has no bit above 7. */
  lemma HighEdgesUnused(g: Grid, x: int, y: int, z: int)
    requires IsCell(g, x, y, z)
    ensures EdgeMaterials(g, x, y, z, CellCase(g, x, y, z), 12) == EdgeMaterials(g, x, y, z, CellCase(g, x, y, z), 8)
  {
    var c := CellCase(g, x, y, z);
    CellCaseBits(g, x, y, z);
    assert EdgeMaterials(g, x, y, z, c, 9) == EdgeMaterials(g, x, y, z, c, 8);
    assert EdgeMaterials(g, x, y, z, c, 10) == EdgeMaterials(g, x, y, z, c, 9);
    assert EdgeMaterials(g, x, y, z, c, 11) == EdgeMaterials(g, x, y, z, c, 10);
  }

  /** A cell whose selected edges contribute nothing has no solid corner, so its case is 0. */
  lemma NoEdgeNoCase(g: Grid, x: int, y: int, z: int)
    requires IsCell(g, x, y, z)
    ensures |EdgeMaterials(g, x, y, z, CellCase(g, x, y, z), 12)| == 0 ==> CellCase(g, x, y, z) == 0
  {
    var c := CellCase(g, x, y, z);
    HighEdgesUnused(g, x, y, z);
    if |EdgeMaterials(g, x, y, z, c, 12)| == 0 {
      NoSelectedEdge(g, x, y, z, c, 8);
      CellCaseBits(g, x, y, z);
      NoSolidNoCase(Corners(g, x, y, z), 8);
    }
  }

  /** Every mixed cell has at least one contributing edge, so its vote is never over an empty list. */
  lemma MixedCellHasEdge(g: Grid, x: int, y: int, z: int)
    requires IsCell(g, x, y, z) && Mixed(g, x, y, z)
    ensures |EdgeMaterials(g, x, y, z, CellCase(g, x, y, z), 12)| > 0
  {
    NoEdgeNoCase(g, x, y, z);
  }

  /** The position of the first occurrence of `m` in `s`, or `|s|` when `m` does not occur. */
  function FirstIndex(s: seq<int>, m: int): (p: nat)
    ensures p <= |s|
    ensures p < |s| ==> s[p] == m
    ensures forall i :: 0 <= i < p ==> s[i] != m
  {
    if s == [] then 0
    else
      var p := FirstIndex(s[..|s| - 1], m);
      if p < |s| - 1 then p else if s[|s| - 1] == m then |s| - 1 else |s|
  }

  /** The count a map holds for `m`: `get(m) || 0`. A present count is at least 1, so `|| 0` only replaces `undefined`. */
  function CountOf(t: Entries<int, int>, m: int): int
  {
    match Get(t, m)
    case Some(n) => n
    case None => 0
  }

  /** `materialCounts.set(m, (materialCounts.get(m) || 0) + 1)`. */
  function Bumped(t: Entries<int, int>, m: int): Entries<int, int>
  {
    Set(t, m, CountOf(t, m) + 1)
  }

  /** `materialCounts` after the edge loop: each material of `ms` counted in turn. */
  function Tally(ms: seq<int>): Entries<int, int>
  {
    if ms == [] then [] else Bumped(Tally(ms[..|ms| - 1]), ms[|ms| - 1])
  }

  lemma TallyAppend(p: seq<int>, x: int)
    ensures Tally(p + [x]) == Bumped(Tally(p), x)
  {
    assert (p + [x])[..|p|] == p;
  }

  /** Counting `m` adds one to its count, keeps every other count and keeps the keys distinct. */
  lemma BumpedGet(t: Entries<int, int>, x: int, m: int)
    requires DistinctKeys(t)
    ensures DistinctKeys(Bumped(t, x))
    ensures Get(Bumped(t, x), m) == if m == x then Some(CountOf(t, x) + 1) else Get(t, m)
  {
    SetDistinct(t, x, CountOf(t, x) + 1);
    GetSet(t, x, CountOf(t, x) + 1, m);
  }

  /** The counts map has one entry per material of `ms`, holding its number of occurrences. */
  lemma {:induction false} TallyCounts(ms: seq<int>)
    ensures DistinctKeys(Tally(ms))
    ensures forall m :: Get(Tally(ms), m) == if m in ms then Some(multiset(ms)[m]) else None
  {
    if ms != [] {
      var p, x := ms[..|ms| - 1], ms[|ms| - 1];
      assert ms == p + [x];
      TallyCounts(p);
      TallyAppend(p, x);
      forall m
        ensures Get(Bumped(Tally(p), x), m) == if m in p + [x] then Some(multiset(p + [x])[m]) else None
      {
        BumpedCount(Tally(p), p, x, m);
      }
      BumpedGet(Tally(p), x, x);
    }
  }

  /** Counting one more material `x` in counts that match `p` keeps the count of every material `m` equal to its number of occurrences. */
  lemma BumpedCount(t: Entries<int, int>, p: seq<int>, x: int, m: int)
    requires DistinctKeys(t)
    requires Get(t, m) == if m in p then Some(multiset(p)[m]) else None
    requires Get(t, x) == if x in p then Some(multiset(p)[x]) else None
    ensures Get(Bumped(t, x), m) == if m in p + [x] then Some(multiset(p + [x])[m]) else None
  {
    BumpedGet(t, x, m);
    assert multiset(p + [x])[m] == multiset(p)[m] + (if m == x then 1 else 0);
    assert m in p + [x] <==> m in p || m == x;
  }

  /** Appending to a list keeps the first occurrence of every element already in it. */
  lemma FirstIndexAppend(p: seq<int>, x: int, m: int)
    ensures m in p ==> FirstIndex(p + [x], m) == FirstIndex(p, m) < |p|
    ensures m !in p && m == x ==> FirstIndex(p + [x], m) == |p|
  {
    assert (p + [x])[..|p|] == p;
  }

  /** The first-occurrence order of the keys survives counting one more material. */
  lemma TallyOrderStep(p: seq<int>, x: int)
    requires forall i :: 0 <= i < |Tally(p)| ==> Tally(p)[i].0 in p
    requires forall i, j :: 0 <= i < j < |Tally(p)| ==> FirstIndex(p, Tally(p)[i].0) < FirstIndex(p, Tally(p)[j].0)
    ensures forall i :: 0 <= i < |Tally(p + [x])| ==> Tally(p + [x])[i].0 in p + [x]
    ensures forall i, j :: 0 <= i < j < |Tally(p + [x])| ==>
      FirstIndex(p + [x], Tally(p + [x])[i].0) < FirstIndex(p + [x], Tally(p + [x])[j].0)
  {
    TallyCounts(p);
    TallyAppend(p, x);
    var t, u := Tally(p), Tally(p + [x]);
    SetKeys(t, x, CountOf(t, x) + 1);
    forall i | 0 <= i < |t|
      ensures u[i].0 == t[i].0 && FirstIndex(p + [x], u[i].0) == FirstIndex(p, t[i].0) < |p|
    {
      FirstIndexAppend(p, x, t[i].0);
    }
    if x !in p {
      assert u == t + [(x, CountOf(t, x) + 1)];
      FirstIndexAppend(p, x, x);
    }
  }

  /** The entries of the counts map come in the order their materials first occur in `ms`. */
  lemma {:induction false} TallyOrder(ms: seq<int>)
    ensures forall i :: 0 <= i < |Tally(ms)| ==> Tally(ms)[i].0 in ms
    ensures forall i, j :: 0 <= i < j < |Tally(ms)| ==> FirstIndex(ms, Tally(ms)[i].0) < FirstIndex(ms, Tally(ms)[j].0)
  {
    if ms != [] {
      var p, x := ms[..|ms| - 1], ms[|ms| - 1];
      assert ms == p + [x];
      TallyOrder(p);
      TallyOrderStep(p, x);
    }
  }

  /** Counting the edges up to `i + 1` counts edge `i` when it is selected. */
  lemma TallyEdgeStep(g: Grid, x: int, y: int, z: int, c: bv32, i: nat)
    requires IsCell(g, x, y, z) && i < 12
    ensures Tally(EdgeMaterials(g, x, y, z, c, i + 1)) ==
      if c & Bit(i) != 0 then Bumped(Tally(EdgeMaterials(g, x, y, z, c, i)), EdgeMaterial(g, x, y, z, i))
      else Tally(EdgeMaterials(g, x, y, z, c, i))
  {
    if c & Bit(i) != 0 {
      TallyAppend(EdgeMaterials(g, x, y, z, c, i), EdgeMaterial(g, x, y, z, i));
    } else {
      assert EdgeMaterials(g, x, y, z, c, i + 1) == EdgeMaterials(g, x, y, z, c, i);
    }
  }

  /**
   * The scan for the predominant material over the first `k` entries: it
   * starts from air with count 0, and a later entry takes over only with a
   * strictly larger count.
   */
  function VoteUpTo(es: Entries<int, int>, k: nat): (int, int)
    requires k <= |es|
  {
    if k == 0 then (OctreeConfig.VOXEL_ID_AIR, 0)
    else
      var best := VoteUpTo(es, k - 1);
      if es[k - 1].1 > best.1 then es[k - 1] else best
  }

  /** The predominant material of a list of edge materials, with its count. */
  function Vote(ms: seq<int>): (int, int)
  {
    var t := Tally(ms);
    VoteUpTo(t, |t|)
  }

  /**
   * The scan ends on the first entry with the largest count, at position
   * `p`; when no entry has a positive count (`p == -1`) it ends on air.
   */
  lemma {:induction false} VoteLeader(es: Entries<int, int>, k: nat) returns (p: int)
    requires k <= |es|
    ensures -1 <= p < k
    ensures p < 0 ==> VoteUpTo(es, k) == (OctreeConfig.VOXEL_ID_AIR, 0) && forall i :: 0 <= i < k ==> es[i].1 <= 0
    ensures p >= 0 ==> VoteUpTo(es, k) == es[p] && es[p].1 > 0
    ensures p >= 0 ==> forall i :: 0 <= i < k ==> es[i].1 <= es[p].1
    ensures p >= 0 ==> forall i :: 0 <= i < p ==> es[i].1 < es[p].1
  {
    if k == 0 {
      p := -1;
    } else {
      p := VoteLeader(es, k - 1);
      if es[k - 1].1 > VoteUpTo(es, k - 1).1 {
        p := k - 1;
      }
    }
  }

  /**
   * The vote picks air for an empty list; otherwise a material of the list
   * with the highest count, and among materials tied at that count the one
   * that occurs first.
   */
  lemma VoteIsMostFrequent(ms: seq<int>)
    ensures ms == [] ==> Vote(ms) == (OctreeConfig.VOXEL_ID_AIR, 0)
    ensures ms != [] ==> Vote(ms).0 in ms && Vote(ms).1 == multiset(ms)[Vote(ms).0]
    ensures forall m :: m in ms ==> multiset(ms)[m] <= Vote(ms).1
    ensures forall m :: m in ms && multiset(ms)[m] == Vote(ms).1 ==> FirstIndex(ms, Vote(ms).0) <= FirstIndex(ms, m)
  {
    var t := Tally(ms);
    TallyCounts(ms);
    TallyOrder(ms);
    var p := VoteLeader(t, |t|);
    if ms != [] {
      LeaderIsMostFrequent(ms, t, p, Vote(ms));
    }
  }

  /**
   * For counts `t` of a non-empty list `ms` in first-occurrence order, the
   * scan's leader `p` holds a most frequent material, the first one of
   * those to occur.
   */
  lemma LeaderIsMostFrequent(ms: seq<int>, t: Entries<int, int>, p: int, v: (int, int))
    requires ms != [] && DistinctKeys(t)
    requires forall m :: Get(t, m) == if m in ms then Some(multiset(ms)[m]) else None
    requires forall i, j :: 0 <= i < j < |t| ==> FirstIndex(ms, t[i].0) < FirstIndex(ms, t[j].0)
    requires -1 <= p < |t|
    requires p < 0 ==> forall i :: 0 <= i < |t| ==> t[i].1 <= 0
    requires p >= 0 ==> v == t[p] && t[p].1 > 0
    requires p >= 0 ==> forall i :: 0 <= i < |t| ==> t[i].1 <= t[p].1
    requires p >= 0 ==> forall i :: 0 <= i < p ==> t[i].1 < t[p].1
    ensures v.0 in ms && v.1 == multiset(ms)[v.0]
    ensures forall m :: m in ms ==> multiset(ms)[m] <= v.1
    ensures forall m :: m in ms && multiset(ms)[m] == v.1 ==> FirstIndex(ms, v.0) <= FirstIndex(ms, m)
  {
    assert p >= 0 by {
      var q := IndexOf(t, ms[0]);
      assert t[q].1 > 0;
    }
    GetEntry(t, p);
    forall m | m in ms
      ensures multiset(ms)[m] <= v.1
      ensures multiset(ms)[m] == v.1 ==> FirstIndex(ms, v.0) <= FirstIndex(ms, m)
    {
      var q := IndexOf(t, m);
      assert t[q].1 == multiset(ms)[m];
    }
  }

  /** `#getCellCase`: the loop over the eight corners that sets one bit per solid corner. */
  method GetCellCase(g: Grid, x: int, y: int, z: int) returns (cellCase: bv32)
    requires IsCell(g, x, y, z)
    ensures cellCase == CellCase(g, x, y, z)
  {
    ghost var solid := Corners(g, x, y, z);
    cellCase := 0;
    var i := 0;
    while i < 8
      invariant 0 <= i <= 8
      invariant cellCase == CaseUpTo(solid, i)
    {
      var gridIndex := CornerIndex(g, x, y, z, i);
      assert solid[i] == (g.density[gridIndex] > 0.0);
      if g.density[gridIndex] > 0.0 {
        cellCase := cellCase | Bit(i);
      }
      i := i + 1;
    }
  }

  /** One pass of the edge loop: edge `i`, when selected, adds one to the count of its material. */
  method CountEdge(g: Grid, x: int, y: int, z: int, cellCase: bv32, i: nat, materialCounts: Entries<int, int>)
    returns (counts: Entries<int, int>)
    requires IsCell(g, x, y, z) && i < 12
    requires materialCounts == Tally(EdgeMaterials(g, x, y, z, cellCase, i))
    ensures counts == Tally(EdgeMaterials(g, x, y, z, cellCase, i + 1))
  {
    TallyEdgeStep(g, x, y, z, cellCase, i);
    counts := materialCounts;
    if cellCase & Bit(i) != 0 {
      var (index0, index1) := EdgeEnds(g, x, y, z, i);
      var d0, d1 := g.density[index0], g.density[index1];
      var matID := if d0 > d1 then g.material[index0] else g.material[index1];
      assert matID == EdgeMaterial(g, x, y, z, i);
      counts := Bumped(counts, matID);
    }
  }

  /**
   * `#calculateCrossoverPoint` without the position average: the loop over
   * the twelve edges counts the material of each selected edge in a map,
   * and the loop over the map's entries keeps the first largest count.
   */
  method CalculateCrossoverPoint(g: Grid, x: int, y: int, z: int, cellCase: bv32)
    returns (normal: (real, real, real), materialID: int)
    requires IsCell(g, x, y, z)
    ensures materialID == Vote(EdgeMaterials(g, x, y, z, cellCase, 12)).0
    ensures normal == (0.5, 0.5, 0.5)
  {
    var materialCounts: Entries<int, int> := [];
    var i := 0;
    while i < 12
      invariant 0 <= i <= 12
      invariant materialCounts == Tally(EdgeMaterials(g, x, y, z, cellCase, i))
    {
      materialCounts := CountEdge(g, x, y, z, cellCase, i, materialCounts);
      i := i + 1;
    }
    var predominantMaterial := OctreeConfig.VOXEL_ID_AIR;
    var maxCount := 0;
    var k := 0;
    while k < |materialCounts|
      invariant 0 <= k <= |materialCounts|
      invariant (predominantMaterial, maxCount) == VoteUpTo(materialCounts, k)
    {
      var (matID, count) := materialCounts[k];
      if count > maxCount {
        maxCount := count;
        predominantMaterial := matID;
      }
      k := k + 1;
    }
    normal := (0.5, 0.5, 0.5);
    materialID := predominantMaterial;
  }

  /** A cell straddles the surface when it has a solid corner and a corner that is not solid. */
  predicate Straddles(g: Grid, x: int, y: int, z: int)
    requires IsCell(g, x, y, z)
  {
    var solid := Corners(g, x, y, z);
    true in solid && false in solid
  }

  /** With every one of the eight corners solid, the case is 255. */
  lemma AllSolidFull(solid: seq<bool>)
    requires |solid| == 8
    ensures (forall i :: 0 <= i < 8 ==> solid[i]) ==> CaseUpTo(solid, 8) == 255
  {
    if forall i :: 0 <= i < 8 ==> solid[i] {
      assert CaseUpTo(solid, 1) == 1;
      assert CaseUpTo(solid, 2) == 3;
      assert CaseUpTo(solid, 3) == 7;
      assert CaseUpTo(solid, 4) == 15;
      assert CaseUpTo(solid, 5) == 31;
      assert CaseUpTo(solid, 6) == 63;
      assert CaseUpTo(solid, 7) == 127;
    }
  }

  /** The test `cellCase === 0 || cellCase === 255` skips exactly the cells that do not straddle the surface. */
  lemma MixedIffStraddles(g: Grid, x: int, y: int, z: int)
    requires IsCell(g, x, y, z)
    ensures Mixed(g, x, y, z) <==> Straddles(g, x, y, z)
  {
    var solid := Corners(g, x, y, z);
    CellCaseBits(g, x, y, z);
    NoSolidNoCase(solid, 8);
    AllSolidFull(solid);
    assert (255 as bv32) & 0xFFFF_FF00 == 0;
  }

  /**
   * The materials of the edges `e < k` that a cell's case selects, stated
   * on its corners: edge `e` is selected when `e < 8` and corner `e` is
   * solid.
   */
  function SelectedMaterials(g: Grid, x: int, y: int, z: int, k: nat): (ms: seq<int>)
    requires IsCell(g, x, y, z) && k <= 12
  {
    if k == 0 then []
    else
      var selected := k - 1 < 8 && CornerSolid(g, x, y, z, k - 1);
      SelectedMaterials(g, x, y, z, k - 1) + (if selected then [EdgeMaterial(g, x, y, z, k - 1)] else [])
  }

  /** The edge test `cellCase & (1 << i)` selects edge `i` exactly when corner `i` is solid. */
  lemma {:induction false} CaseSelectsEdges(g: Grid, x: int, y: int, z: int, k: nat)
    requires IsCell(g, x, y, z) && k <= 12
    ensures EdgeMaterials(g, x, y, z, CellCase(g, x, y, z), k) == SelectedMaterials(g, x, y, z, k)
  {
    if k > 0 {
      CaseSelectsEdges(g, x, y, z, k - 1);
      CellCaseBits(g, x, y, z);
    }
  }

  // ---------------------------------------------------------------- the vertex pass

  /** A cell `(x, y, z)` of the grid. */
  type Cell = (int, int, int)

  /** Cell `a` is visited before cell `b` by the loops over `y`, then `z`, then `x`. */
  predicate Before(a: Cell, b: Cell)
  {
    a.1 < b.1 || (a.1 == b.1 && (a.2 < b.2 || (a.2 == b.2 && a.0 < b.0)))
  }

  /** `voxelIndex`: the slot of cell `(x, y, z)` in `vertexIndexMap`, for `n` cells per side. */
  function VoxelIndex(n: nat, x: int, y: int, z: int): (i: nat)
    requires 0 <= x < n && 0 <= y < n && 0 <= z < n
    ensures i < Cube(n)
  {
    GridIndexBound(n, x, y, z);
    x + y * n + z * n * n
  }

  /** Distinct cells have distinct slots. */
  lemma VoxelIndexInjective(n: nat, x1: int, y1: int, z1: int, x2: int, y2: int, z2: int)
    requires 0 <= x1 < n && 0 <= y1 < n && 0 <= z1 < n
    requires 0 <= x2 < n && 0 <= y2 < n && 0 <= z2 < n
    ensures VoxelIndex(n, x1, y1, z1) == VoxelIndex(n, x2, y2, z2) <==> x1 == x2 && y1 == y2 && z1 == z2
  {
    if VoxelIndex(n, x1, y1, z1) == VoxelIndex(n, x2, y2, z2) {
      var q1, q2 := y1 + z1 * n, y2 + z2 * n;
      assert x1 + q1 * n == x2 + q2 * n;
      ModUnique(x1 + q1 * n, n, q1, x1);
      ModUnique(x2 + q2 * n, n, q2, x2);
      MulCancel(n, q1, q2);
      ModUnique(q1, n, z1, y1);
      ModUnique(q2, n, z2, y2);
      MulCancel(n, z1, z2);
    }
  }

  lemma MulCancel(n: nat, a: int, b: int)
    requires n > 0 && a * n == b * n
    ensures a == b
  {
    assert (a - b) * n == a * n - b * n;
    ProductBounds(a - b, n);
  }

  /** The mixed cells of row `(y, z)` with `x < k`, in loop order. */
  function RowMixed(g: Grid, y: int, z: int, k: nat): seq<Cell>
    requires WellSized(g) && 0 <= y < NumVoxels(g) && 0 <= z < NumVoxels(g) && k <= NumVoxels(g)
  {
    if k == 0 then []
    else RowMixed(g, y, z, k - 1) + (if Straddles(g, k - 1, y, z) then [(k - 1, y, z)] else [])
  }

  /** The mixed cells of layer `y` with `z < k`, in loop order. */
  function SliceMixed(g: Grid, y: int, k: nat): seq<Cell>
    requires WellSized(g) && 0 <= y < NumVoxels(g) && k <= NumVoxels(g)
  {
    if k == 0 then [] else SliceMixed(g, y, k - 1) + RowMixed(g, y, k - 1, NumVoxels(g))
  }

  /** The mixed cells with `y < k`, in loop order. */
  function PlaneMixed(g: Grid, k: nat): seq<Cell>
    requires WellSized(g) && k <= NumVoxels(g)
  {
    if k == 0 then [] else PlaneMixed(g, k - 1) + SliceMixed(g, k - 1, NumVoxels(g))
  }

  /** The cells that get a vertex, in the order the loops of `extractMesh` reach them. */
  function MixedCells(g: Grid): seq<Cell>
    requires WellSized(g)
  {
    PlaneMixed(g, NumVoxels(g))
  }

  /** A row lists exactly its mixed cells below `k`, by increasing `x`. */
  lemma {:induction false} RowMixedCells(g: Grid, y: int, z: int, k: nat)
    requires WellSized(g) && 0 <= y < NumVoxels(g) && 0 <= z < NumVoxels(g) && k <= NumVoxels(g)
    ensures forall j :: 0 <= j < |RowMixed(g, y, z, k)| ==>
      var c := RowMixed(g, y, z, k)[j]; c.1 == y && c.2 == z && 0 <= c.0 < k && Straddles(g, c.0, y, z)
    ensures forall i, j :: 0 <= i < j < |RowMixed(g, y, z, k)| ==> RowMixed(g, y, z, k)[i].0 < RowMixed(g, y, z, k)[j].0
    ensures forall x :: 0 <= x < k && Straddles(g, x, y, z) ==> (x, y, z) in RowMixed(g, y, z, k)
  {
    if k > 0 {
      RowMixedCells(g, y, z, k - 1);
      var prev := RowMixed(g, y, z, k - 1);
      var straddles := Straddles(g, k - 1, y, z);
      RowStep(prev, y, z, k, straddles, RowMixed(g, y, z, k));
    }
  }

  /** One more cell at the end of a row: the row facts for `k - 1` carry over to `k`. */
  lemma RowStep(prev: seq<Cell>, y: int, z: int, k: nat, straddles: bool, row: seq<Cell>)
    requires k > 0 && row == prev + (if straddles then [(k - 1, y, z)] else [])
    requires forall j :: 0 <= j < |prev| ==> prev[j].1 == y && prev[j].2 == z && 0 <= prev[j].0 < k - 1
    requires forall i, j :: 0 <= i < j < |prev| ==> prev[i].0 < prev[j].0
    ensures forall j :: 0 <= j < |row| ==> row[j].1 == y && row[j].2 == z && 0 <= row[j].0 < k
    ensures forall j :: 0 <= j < |row| && row[j].0 == k - 1 ==> straddles
    ensures forall i, j :: 0 <= i < j < |row| ==> row[i].0 < row[j].0
    ensures forall c :: c in prev ==> c in row
    ensures straddles ==> (k - 1, y, z) in row
  {
  }

  /** A layer lists exactly its mixed cells in rows below `k`, in loop order. */
  lemma {:induction false} SliceMixedCells(g: Grid, y: int, k: nat)
    requires WellSized(g) && 0 <= y < NumVoxels(g) && k <= NumVoxels(g)
    ensures forall j :: 0 <= j < |SliceMixed(g, y, k)| ==>
      var c := SliceMixed(g, y, k)[j]; c.1 == y && 0 <= c.2 < k && 0 <= c.0 < NumVoxels(g) && Straddles(g, c.0, y, c.2)
    ensures forall i, j :: 0 <= i < j < |SliceMixed(g, y, k)| ==> Before(SliceMixed(g, y, k)[i], SliceMixed(g, y, k)[j])
    ensures forall x, z :: 0 <= x < NumVoxels(g) && 0 <= z < k && Straddles(g, x, y, z) ==> (x, y, z) in SliceMixed(g, y, k)
  {
    if k > 0 {
      SliceMixedCells(g, y, k - 1);
      RowMixedCells(g, y, k - 1, NumVoxels(g));
    }
  }

  /** The layers below `k` list exactly their mixed cells, in loop order. */
  lemma {:induction false} PlaneMixedCells(g: Grid, k: nat)
    requires WellSized(g) && k <= NumVoxels(g)
    ensures forall j :: 0 <= j < |PlaneMixed(g, k)| ==>
      var c := PlaneMixed(g, k)[j]; 0 <= c.1 < k && 0 <= c.2 < NumVoxels(g) && 0 <= c.0 < NumVoxels(g) && Straddles(g, c.0, c.1, c.2)
    ensures forall i, j :: 0 <= i < j < |PlaneMixed(g, k)| ==> Before(PlaneMixed(g, k)[i], PlaneMixed(g, k)[j])
    ensures forall x, y, z :: 0 <= x < NumVoxels(g) && 0 <= y < k && 0 <= z < NumVoxels(g) && Straddles(g, x, y, z) ==>
      (x, y, z) in PlaneMixed(g, k)
  {
    if k > 0 {
      PlaneMixedCells(g, k - 1);
      SliceMixedCells(g, k - 1, NumVoxels(g));
    }
  }

  /**
   * The vertex cells are exactly the mixed cells of the grid, each once, in
   * loop order: vertex `k` belongs to the `k`-th mixed cell the loops reach.
   */
  lemma MixedCellsInLoopOrder(g: Grid)
    requires WellSized(g)
    ensures forall j :: 0 <= j < |MixedCells(g)| ==>
      var c := MixedCells(g)[j]; IsCell(g, c.0, c.1, c.2) && Mixed(g, c.0, c.1, c.2)
    ensures forall i, j :: 0 <= i < j < |MixedCells(g)| ==> Before(MixedCells(g)[i], MixedCells(g)[j])
    ensures forall x, y, z :: IsCell(g, x, y, z) && Mixed(g, x, y, z) ==> (x, y, z) in MixedCells(g)
  {
    PlaneMixedCells(g, NumVoxels(g));
    forall x, y, z | IsCell(g, x, y, z)
      ensures Mixed(g, x, y, z) <==> Straddles(g, x, y, z)
    {
      MixedIffStraddles(g, x, y, z);
    }
  }

  /** The material of the vertex of a cell: the vote over its selected edges. */
  function VertexMaterial(g: Grid, c: Cell): int
    requires IsCell(g, c.0, c.1, c.2)
  {
    Vote(SelectedMaterials(g, c.0, c.1, c.2, 12)).0
  }

  /** The color pushed for a material: its palette color, or opaque black when the lookup finds none. */
  function ColorOf(material: Option<Palette.Color>): (rgba: seq<real>)
    ensures |rgba| == 4
    ensures material.None? ==> rgba == [0.0, 0.0, 0.0, 1.0]
  {
    match material
    case Some(c) => [c.r, c.g, c.b, c.a]
    case None => [0.0, 0.0, 0.0, 1.0]
  }

  /** Every entry is a cell of the grid. */
  predicate AllCells(g: Grid, cells: seq<Cell>)
  {
    forall j :: 0 <= j < |cells| ==> IsCell(g, cells[j].0, cells[j].1, cells[j].2)
  }

  /** `vertices` for the given vertex cells: three coordinates per cell. */
  function Positions(cells: seq<Cell>, position: Cell -> (real, real, real)): (r: seq<real>)
    ensures |r| == 3 * |cells|
  {
    if cells == [] then []
    else
      var p := position(cells[|cells| - 1]);
      Positions(cells[..|cells| - 1], position) + [p.0, p.1, p.2]
  }

  /** `normals` for `k` vertices: the placeholder (0.5, 0.5, 0.5) each. */
  function Placeholders(k: nat): (r: seq<real>)
    ensures |r| == 3 * k
    ensures forall i :: 0 <= i < |r| ==> r[i] == 0.5
  {
    if k == 0 then [] else Placeholders(k - 1) + [0.5, 0.5, 0.5]
  }

  /** The voted material of each vertex cell. */
  function VertexMaterials(g: Grid, cells: seq<Cell>): (ms: seq<int>)
    requires AllCells(g, cells)
    ensures |ms| == |cells|
  {
    if cells == [] then []
    else VertexMaterials(g, cells[..|cells| - 1]) + [VertexMaterial(g, cells[|cells| - 1])]
  }

  /** Vertex `j` carries the voted material of the `j`-th cell. */
  lemma {:induction false} VertexMaterialAt(g: Grid, cells: seq<Cell>, j: nat)
    requires AllCells(g, cells) && j < |cells|
    ensures VertexMaterials(g, cells)[j] == VertexMaterial(g, cells[j])
  {
    var p := cells[..|cells| - 1];
    if j < |p| {
      VertexMaterialAt(g, p, j);
    }
  }

  /** `colors` for the given vertex materials: four components per vertex. */
  function Colors(materials: seq<int>, lookup: int -> Option<Palette.Color>): (r: seq<real>)
    ensures |r| == 4 * |materials|
  {
    if materials == [] then []
    else Colors(materials[..|materials| - 1], lookup) + ColorOf(lookup(materials[|materials| - 1]))
  }

  /** Vertex `j` is at the position of the `j`-th cell. */
  lemma {:induction false} PositionAt(cells: seq<Cell>, position: Cell -> (real, real, real), j: nat)
    requires j < |cells|
    ensures Positions(cells, position)[3 * j..3 * j + 3] ==
      [position(cells[j]).0, position(cells[j]).1, position(cells[j]).2]
  {
    var p := cells[..|cells| - 1];
    if j < |p| {
      PositionAt(p, position, j);
      assert Positions(cells, position)[..3 * |p|] == Positions(p, position);
      assert p[j] == cells[j];
    }
  }

  /** Vertex `j` has the color the lookup gives for its material. */
  lemma {:induction false} ColorAt(materials: seq<int>, lookup: int -> Option<Palette.Color>, j: nat)
    requires j < |materials|
    ensures Colors(materials, lookup)[4 * j..4 * j + 4] == ColorOf(lookup(materials[j]))
  {
    var p := materials[..|materials| - 1];
    if j < |p| {
      ColorAt(p, lookup, j);
      assert Colors(materials, lookup)[..4 * |p|] == Colors(p, lookup);
      assert p[j] == materials[j];
    }
  }

  /** The vertex arrays after the given vertex cells. */
  ghost predicate Attributes(g: Grid, position: Cell -> (real, real, real), lookup: int -> Option<Palette.Color>,
                             emitted: seq<Cell>, vertices: seq<real>, normals: seq<real>, colors: seq<real>)
  {
    AllCells(g, emitted) &&
    vertices == Positions(emitted, position) &&
    normals == Placeholders(|emitted|) &&
    colors == Colors(VertexMaterials(g, emitted), lookup)
  }

  /** Pushing the vertex of one more cell extends the arrays by that cell's position, normal and color. */
  lemma AttributesStep(g: Grid, position: Cell -> (real, real, real), lookup: int -> Option<Palette.Color>,
                       emitted: seq<Cell>, vertices: seq<real>, normals: seq<real>, colors: seq<real>, c: Cell)
    requires Attributes(g, position, lookup, emitted, vertices, normals, colors)
    requires IsCell(g, c.0, c.1, c.2)
    ensures Attributes(g, position, lookup, emitted + [c],
      vertices + [position(c).0, position(c).1, position(c).2],
      normals + [0.5, 0.5, 0.5],
      colors + ColorOf(lookup(VertexMaterial(g, c))))
  {
    var e := emitted + [c];
    assert e[..|emitted|] == emitted;
  }

  /**
   * `vertexIndexMap` after the given vertex cells: -1 in every slot, then
   * `j` written into the slot of the `j`-th cell.
   */
  function Slots(g: Grid, cells: seq<Cell>): (m: seq<int>)
    requires WellSized(g) && AllCells(g, cells)
    ensures |m| == Cube(NumVoxels(g))
  {
    var n := NumVoxels(g);
    if cells == [] then seq(Cube(n), _ => -1)
    else
      var c := cells[|cells| - 1];
      Slots(g, cells[..|cells| - 1])[VoxelIndex(n, c.0, c.1, c.2) := |cells| - 1]
  }

  /** No cell occurs twice. */
  predicate Distinct(cells: seq<Cell>)
  {
    forall i, j :: 0 <= i < j < |cells| ==> cells[i] != cells[j]
  }

  /** Cells listed in strictly increasing loop order are distinct. */
  lemma OrderedDistinct(cells: seq<Cell>)
    requires forall i, j :: 0 <= i < j < |cells| ==> Before(cells[i], cells[j])
    ensures Distinct(cells)
  {
    forall i, j | 0 <= i < j < |cells|
      ensures cells[i] != cells[j]
    {
      assert Before(cells[i], cells[j]);
    }
  }

  /**
   * For distinct cells, the slot of the `j`-th cell holds `j` and the slot
   * of every other cell of the grid holds -1.
   */
  lemma {:induction false} SlotsMeaning(g: Grid, cells: seq<Cell>)
    requires WellSized(g) && AllCells(g, cells) && Distinct(cells)
    ensures forall j :: 0 <= j < |cells| ==>
      Slots(g, cells)[VoxelIndex(NumVoxels(g), cells[j].0, cells[j].1, cells[j].2)] == j
    ensures forall x, y, z :: IsCell(g, x, y, z) && (x, y, z) !in cells ==>
      Slots(g, cells)[VoxelIndex(NumVoxels(g), x, y, z)] == -1
  {
    if cells != [] {
      var n := NumVoxels(g);
      var p, c := cells[..|cells| - 1], cells[|cells| - 1];
      assert cells == p + [c];
      SlotsMeaning(g, p);
      forall j | 0 <= j < |p|
        ensures Slots(g, cells)[VoxelIndex(n, p[j].0, p[j].1, p[j].2)] == j
      {
        VoxelIndexInjective(n, p[j].0, p[j].1, p[j].2, c.0, c.1, c.2);
      }
      forall x, y, z | IsCell(g, x, y, z) && (x, y, z) !in cells
        ensures Slots(g, cells)[VoxelIndex(n, x, y, z)] == -1
      {
        VoxelIndexInjective(n, x, y, z, c.0, c.1, c.2);
      }
    }
  }

  /**
   * The map after the whole pass: the slot of the `j`-th mixed cell holds
   * `j`, and the slot of every cell that is not mixed holds -1.
   */
  lemma MixedSlots(g: Grid)
    requires WellSized(g)
    ensures AllCells(g, MixedCells(g))
    ensures forall j :: 0 <= j < |MixedCells(g)| ==>
      var c := MixedCells(g)[j]; Slots(g, MixedCells(g))[VoxelIndex(NumVoxels(g), c.0, c.1, c.2)] == j
    ensures forall x, y, z :: IsCell(g, x, y, z) && !Mixed(g, x, y, z) ==>
      Slots(g, MixedCells(g))[VoxelIndex(NumVoxels(g), x, y, z)] == -1
  {
    var cells := MixedCells(g);
    MixedCellsInLoopOrder(g);
    OrderedDistinct(cells);
    SlotsMeaning(g, cells);
  }

  /**
   * One pass of the innermost loop of `extractMesh`: a mixed cell gets the
   * next vertex, with its position, the placeholder normal and the color of
   * its voted material, and its slot in `vertexIndexMap` gets that vertex's
   * index.
   */
  method VisitCell(g: Grid, position: Cell -> (real, real, real), lookup: int -> Option<Palette.Color>,
                   x: int, y: int, z: int, vertexIndexMap: array<int>,
                   vertices: seq<real>, normals: seq<real>, colors: seq<real>, ghost emitted: seq<Cell>)
    returns (vertices2: seq<real>, normals2: seq<real>, colors2: seq<real>, ghost emitted2: seq<Cell>)
    requires IsCell(g, x, y, z)
    requires Attributes(g, position, lookup, emitted, vertices, normals, colors)
    requires vertexIndexMap[..] == Slots(g, emitted)
    modifies vertexIndexMap
    ensures emitted2 == emitted + if Straddles(g, x, y, z) then [(x, y, z)] else []
    ensures Attributes(g, position, lookup, emitted2, vertices2, normals2, colors2)
    ensures vertexIndexMap[..] == Slots(g, emitted2)
  {
    var numVoxels := NumVoxels(g);
    var voxelIndex := x + y * numVoxels + z * numVoxels * numVoxels;
    assert voxelIndex == VoxelIndex(numVoxels, x, y, z);
    assert voxelIndex < vertexIndexMap.Length == |Slots(g, emitted)|;
    var cellCase := GetCellCase(g, x, y, z);
    MixedIffStraddles(g, x, y, z);
    CaseSelectsEdges(g, x, y, z, 12);
    vertices2, normals2, colors2, emitted2 := vertices, normals, colors, emitted;
    if cellCase == 0 || cellCase == 255 {
      return;
    }
    var normal, materialID := CalculateCrossoverPoint(g, x, y, z, cellCase);
    assert materialID == VertexMaterial(g, (x, y, z));
    AttributesStep(g, position, lookup, emitted, vertices, normals, colors, (x, y, z));
    var point := position((x, y, z));
    vertices2 := vertices + [point.0, point.1, point.2];
    normals2 := normals + [normal.0, normal.1, normal.2];
    colors2 := colors + ColorOf(lookup(materialID));
    emitted2 := emitted + [(x, y, z)];
    var newVertexIndex := |vertices2| / 3 - 1;
    assert newVertexIndex == |emitted|;
    SlotsAppend(g, emitted, (x, y, z), emitted2, voxelIndex, newVertexIndex);
    ghost var before := vertexIndexMap[..];
    vertexIndexMap[voxelIndex] := newVertexIndex;
    assert vertexIndexMap[..] == before[voxelIndex := newVertexIndex];
  }

  /** Emitting one more cell records its vertex number in that cell's slot. */
  lemma SlotsAppend(g: Grid, emitted: seq<Cell>, c: Cell, emitted2: seq<Cell>, index: int, vertex: int)
    requires WellSized(g) && AllCells(g, emitted) && IsCell(g, c.0, c.1, c.2) && emitted2 == emitted + [c]
    requires index == VoxelIndex(NumVoxels(g), c.0, c.1, c.2) && vertex == |emitted|
    ensures AllCells(g, emitted2) && 0 <= index < |Slots(g, emitted)|
    ensures Slots(g, emitted2) == Slots(g, emitted)[index := vertex]
  {
    assert emitted2[..|emitted|] == emitted;
  }

  /** One more cell of the row extends the cells emitted so far by that cell when it is mixed. */
  lemma RowMixedNext(g: Grid, y: int, z: int, x: nat, emitted: seq<Cell>, e1: seq<Cell>, e2: seq<Cell>)
    requires WellSized(g) && 0 <= y < NumVoxels(g) && 0 <= z < NumVoxels(g) && x < NumVoxels(g)
    requires e1 == emitted + RowMixed(g, y, z, x)
    requires e2 == e1 + if Straddles(g, x, y, z) then [(x, y, z)] else []
    ensures e2 == emitted + RowMixed(g, y, z, x + 1)
  {
    var added := if Straddles(g, x, y, z) then [(x, y, z)] else [];
    assert (emitted + RowMixed(g, y, z, x)) + added == emitted + (RowMixed(g, y, z, x) + added);
  }

  /** One more row of the layer extends the cells emitted so far by that row's mixed cells. */
  lemma SliceMixedNext(g: Grid, y: int, z: nat, emitted: seq<Cell>, e1: seq<Cell>, e2: seq<Cell>)
    requires WellSized(g) && 0 <= y < NumVoxels(g) && z < NumVoxels(g)
    requires e1 == emitted + SliceMixed(g, y, z)
    requires e2 == e1 + RowMixed(g, y, z, NumVoxels(g))
    ensures e2 == emitted + SliceMixed(g, y, z + 1)
  {
    var row := RowMixed(g, y, z, NumVoxels(g));
    assert (emitted + SliceMixed(g, y, z)) + row == emitted + (SliceMixed(g, y, z) + row);
  }

  /** One more layer extends the cells emitted so far by that layer's mixed cells. */
  lemma PlaneMixedNext(g: Grid, y: nat, e1: seq<Cell>, e2: seq<Cell>)
    requires WellSized(g) && y < NumVoxels(g)
    requires e1 == PlaneMixed(g, y)
    requires e2 == e1 + SliceMixed(g, y, NumVoxels(g))
    ensures e2 == PlaneMixed(g, y + 1)
  {
  }

  /** The innermost loop of `extractMesh`: the cells of row `(y, z)` by increasing `x`. */
  method VisitRow(g: Grid, position: Cell -> (real, real, real), lookup: int -> Option<Palette.Color>,
                  y: int, z: int, vertexIndexMap: array<int>,
                  vertices: seq<real>, normals: seq<real>, colors: seq<real>, ghost emitted: seq<Cell>)
    returns (vertices2: seq<real>, normals2: seq<real>, colors2: seq<real>, ghost emitted2: seq<Cell>)
    requires WellSized(g) && 0 <= y < NumVoxels(g) && 0 <= z < NumVoxels(g)
    requires Attributes(g, position, lookup, emitted, vertices, normals, colors)
    requires vertexIndexMap[..] == Slots(g, emitted)
    modifies vertexIndexMap
    ensures emitted2 == emitted + RowMixed(g, y, z, NumVoxels(g))
    ensures Attributes(g, position, lookup, emitted2, vertices2, normals2, colors2)
    ensures vertexIndexMap[..] == Slots(g, emitted2)
  {
    var numVoxels := g.resolution - 1;
    vertices2, normals2, colors2, emitted2 := vertices, normals, colors, emitted;
    var x := 0;
    while x < numVoxels
      invariant 0 <= x <= numVoxels
      invariant emitted2 == emitted + RowMixed(g, y, z, x)
      invariant Attributes(g, position, lookup, emitted2, vertices2, normals2, colors2)
      invariant vertexIndexMap[..] == Slots(g, emitted2)
    {
      ghost var before := emitted2;
      vertices2, normals2, colors2, emitted2 :=
        VisitCell(g, position, lookup, x, y, z, vertexIndexMap, vertices2, normals2, colors2, emitted2);
      RowMixedNext(g, y, z, x, emitted, before, emitted2);
      x := x + 1;
    }
    assert x == NumVoxels(g);
  }

  /** The middle loop of `extractMesh`: the rows of layer `y` by increasing `z`. */
  method VisitLayer(g: Grid, position: Cell -> (real, real, real), lookup: int -> Option<Palette.Color>,
                    y: int, vertexIndexMap: array<int>,
                    vertices: seq<real>, normals: seq<real>, colors: seq<real>, ghost emitted: seq<Cell>)
    returns (vertices2: seq<real>, normals2: seq<real>, colors2: seq<real>, ghost emitted2: seq<Cell>)
    requires WellSized(g) && 0 <= y < NumVoxels(g)
    requires Attributes(g, position, lookup, emitted, vertices, normals, colors)
    requires vertexIndexMap[..] == Slots(g, emitted)
    modifies vertexIndexMap
    ensures emitted2 == emitted + SliceMixed(g, y, NumVoxels(g))
    ensures Attributes(g, position, lookup, emitted2, vertices2, normals2, colors2)
    ensures vertexIndexMap[..] == Slots(g, emitted2)
  {
    var numVoxels := g.resolution - 1;
    vertices2, normals2, colors2, emitted2 := vertices, normals, colors, emitted;
    var z := 0;
    while z < numVoxels
      invariant 0 <= z <= numVoxels
      invariant emitted2 == emitted + SliceMixed(g, y, z)
      invariant Attributes(g, position, lookup, emitted2, vertices2, normals2, colors2)
      invariant vertexIndexMap[..] == Slots(g, emitted2)
    {
      ghost var before := emitted2;
      vertices2, normals2, colors2, emitted2 :=
        VisitRow(g, position, lookup, y, z, vertexIndexMap, vertices2, normals2, colors2, emitted2);
      SliceMixedNext(g, y, z, emitted, before, emitted2);
      z := z + 1;
    }
    assert z == NumVoxels(g);
  }

  /** `new Int32Array(numVoxels ** 3).fill(-1)`: no cell has a vertex yet. */
  method NewVertexIndexMap(g: Grid) returns (vertexIndexMap: array<int>)
    requires WellSized(g)
    ensures fresh(vertexIndexMap)
    ensures vertexIndexMap[..] == Slots(g, [])
  {
    var numVoxels := NumVoxels(g);
    vertexIndexMap := new int[Cube(numVoxels)](_ => -1);
    assert vertexIndexMap[..] == Slots(g, []);
  }

  /**
   * The vertex pass of `extractMesh`: the loops over `y`, `z` and `x` give
   * every mixed cell, in loop order, one vertex and record its index in
   * `vertexIndexMap`, which starts filled with -1.
   */
  method PlaceVertices(g: Grid, position: Cell -> (real, real, real), lookup: int -> Option<Palette.Color>)
    returns (vertices: seq<real>, normals: seq<real>, colors: seq<real>, vertexIndexMap: array<int>)
    requires WellSized(g)
    ensures fresh(vertexIndexMap)
    ensures Attributes(g, position, lookup, MixedCells(g), vertices, normals, colors)
    ensures AllCells(g, MixedCells(g)) && vertexIndexMap[..] == Slots(g, MixedCells(g))
  {
    var numVoxels := g.resolution - 1;
    vertexIndexMap := NewVertexIndexMap(g);
    vertices, normals, colors := [], [], [];
    ghost var emitted: seq<Cell> := [];
    var y := 0;
    while y < numVoxels
      invariant 0 <= y <= numVoxels
      invariant emitted == PlaneMixed(g, y)
      invariant Attributes(g, position, lookup, emitted, vertices, normals, colors)
      invariant vertexIndexMap[..] == Slots(g, emitted)
    {
      ghost var before := emitted;
      vertices, normals, colors, emitted :=
        VisitLayer(g, position, lookup, y, vertexIndexMap, vertices, normals, colors, emitted);
      PlaneMixedNext(g, y, before, emitted);
      y := y + 1;
    }
    assert emitted == MixedCells(g);
  }

  /** The result of `#createBufferData`: the three vertex arrays and the index array. */
  datatype Mesh = Mesh(vertices: seq<real>, normals: seq<real>, colors: seq<real>, indices: seq<nat>)

  /**
   * `extractMesh`: one vertex per mixed cell, in loop order, with its
   * position, the placeholder normal and its material's color; the
   * triangulation pass adds no index.
   */
  method ExtractMesh(g: Grid, position: Cell -> (real, real, real), lookup: int -> Option<Palette.Color>)
    returns (mesh: Mesh)
    requires WellSized(g)
    ensures mesh.vertices == Positions(MixedCells(g), position)
    ensures mesh.normals == Placeholders(|MixedCells(g)|)
    ensures AllCells(g, MixedCells(g)) && mesh.colors == Colors(VertexMaterials(g, MixedCells(g)), lookup)
    ensures mesh.indices == []
  {
    var vertices, normals, colors, vertexIndexMap := PlaceVertices(g, position, lookup);
    mesh := Mesh(vertices, normals, colors, []);
  }
}
