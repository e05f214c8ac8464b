/**
 * The chunk streaming of src/world/chunkManager.js: which chunks around the
 * player still need a mesh, the 32³ "shell" of a chunk read out of the
 * voxel window, the bookkeeping of mesh tasks over a pool of four workers,
 * and the release of a region's data once none of its chunks is loaded.
 *
 * Chunks are named by the key `${rx}_${ry}_${rz}_${cx}_${cy}_${cz}`;
 * `loadedChunks` is a `Set` of such keys; nothing modelled here iterates
 * over it in order, so it is a Dafny `set`.
 */
module ChunkStreaming {
  import opened JsNumbers
  import opened Wrappers
  import JsSet
  import JsMap
  import WorldLoader
  import VoxelWindow

  /** `POOL_SIZE`: mesh workers in the pool. */
  const POOL_SIZE: nat := 4
  /** `CHUNK_SIZE_SHELL`: a chunk's core with a one-voxel border. */
  const SHELL_SIZE: nat := 32
  /** Bytes of a shell, `32³`. */
  const SHELL_BYTES: nat := 32_768

  // ---------------------------------------------------------------- keys

  /** A chunk: its region and its place in the region's 4³ grid. */
  datatype ChunkRef = ChunkRef(regionX: int, regionY: int, regionZ: int, chunkX: int, chunkY: int, chunkZ: int)

  /** `${regionX}_${regionY}_${regionZ}_${chunkX}_${chunkY}_${chunkZ}`. */
  function ChunkKey(c: ChunkRef): string
  {
    WorldLoader.RegionKey(c.regionX, c.regionY, c.regionZ) + "_"
      + IntToString(c.chunkX) + "_" + IntToString(c.chunkY) + "_" + IntToString(c.chunkZ)
  }

  /** `s.startsWith(prefix)`. */
  predicate StartsWith(s: string, prefix: string)
  {
    |prefix| <= |s| && s[..|prefix|] == prefix
  }

  /** A rendered integer holds no `_`. */
  lemma NoSeparator(i: int)
    ensures '_' !in IntToString(i)
  {
  }

  /**
   * Keys are cut at the first `_`: when `b_y` starts with `a_x` and neither
   * `a` nor `b` holds a `_`, then `a` is `b` and `y` starts with `x`.
   */
  lemma CutAtSeparator(a: string, x: string, b: string, y: string)
    requires '_' !in a && '_' !in b
    requires StartsWith(b + "_" + y, a + "_" + x)
    ensures a == b && StartsWith(y, x)
  {
    var s, p := b + "_" + y, a + "_" + x;
    SeparatorAt(a, x, s);
    SeparatorAt(b, y, s);
    assert a == p[..|a|] == s[..|a|] == b;
    assert y[..|x|] == s[|a| + 1..|p|] == x;
  }

  /** A string that starts with `a_x`, where `a` holds no `_`, has its first `_` at `|a|`. */
  lemma SeparatorAt(a: string, x: string, s: string)
    requires '_' !in a && StartsWith(s, a + "_" + x)
    ensures |a| < |s| && s[|a|] == '_'
    ensures forall i :: 0 <= i < |a| ==> s[i] != '_'
  {
    var p := a + "_" + x;
    assert s[..|p|] == p;
    forall i | 0 <= i < |a|
      ensures s[i] != '_'
    {
      assert s[i] == p[i] == a[i];
    }
  }

  /** Two keys cut at their first `_` are equal only when both parts are. */
  lemma SplitEqual(a: string, x: string, b: string, y: string)
    requires '_' !in a && '_' !in b && a + "_" + x == b + "_" + y
    ensures a == b && x == y
  {
    var s := a + "_" + x;
    assert StartsWith(s, s);
    CutAtSeparator(a, x, b, y);
    assert x == s[|a| + 1..] == y;
  }

  /** A chunk key as its first part, `_`, and the rest, part after part. */
  lemma KeyNested(c: ChunkRef)
    ensures ChunkKey(c) == IntToString(c.regionX) + "_" + (IntToString(c.regionY) + "_" + (IntToString(c.regionZ) + "_"
      + (IntToString(c.chunkX) + "_" + (IntToString(c.chunkY) + "_" + IntToString(c.chunkZ)))))
  {
    var s0, s1, s2 := IntToString(c.regionX), IntToString(c.regionY), IntToString(c.regionZ);
    var s3, s4, s5 := IntToString(c.chunkX), IntToString(c.chunkY), IntToString(c.chunkZ);
    assert ChunkKey(c) == s0 + "_" + s1 + "_" + s2 + "_" + s3 + "_" + s4 + "_" + s5;
    var p0 := s0 + "_";
    var p1 := p0 + s1 + "_";
    var p2 := p1 + s2 + "_";
    var p3 := p2 + s3 + "_";
    var r4 := s4 + "_" + s5;
    var r3 := s3 + "_" + r4;
    var r2 := s2 + "_" + r3;
    SeparatorRegroup(p3, s4, s5);
    SeparatorRegroup(p2, s3, r4);
    SeparatorRegroup(p1, s2, r3);
    SeparatorRegroup(p0, s1, r2);
  }

  /** Moving one part and its `_` from the front of a key to the back of what follows. */
  lemma SeparatorRegroup(front: string, part: string, rest: string)
    ensures front + part + "_" + rest == front + (part + "_" + rest)
  {
  }

  /** A region key followed by `_`, part after part. */
  lemma RegionPrefixNested(rx: int, ry: int, rz: int)
    ensures WorldLoader.RegionKey(rx, ry, rz) + "_" == IntToString(rx) + "_" + (IntToString(ry) + "_" + (IntToString(rz) + "_" + ""))
  {
  }

  /** Different chunks have different keys, so `loadedChunks` holds each chunk at most once. */
  lemma ChunkKeyInjective(c: ChunkRef, d: ChunkRef)
    requires ChunkKey(c) == ChunkKey(d)
    ensures c == d
  {
    KeyNested(c);
    KeyNested(d);
    NoSeparator(c.regionX); NoSeparator(c.regionY); NoSeparator(c.regionZ);
    NoSeparator(c.chunkX); NoSeparator(c.chunkY);
    NoSeparator(d.regionX); NoSeparator(d.regionY); NoSeparator(d.regionZ);
    NoSeparator(d.chunkX); NoSeparator(d.chunkY);
    var s0, s1, s2 := IntToString(c.regionX), IntToString(c.regionY), IntToString(c.regionZ);
    var s3, s4, s5 := IntToString(c.chunkX), IntToString(c.chunkY), IntToString(c.chunkZ);
    var t0, t1, t2 := IntToString(d.regionX), IntToString(d.regionY), IntToString(d.regionZ);
    var t3, t4, t5 := IntToString(d.chunkX), IntToString(d.chunkY), IntToString(d.chunkZ);
    SplitEqual(s0, s1 + "_" + (s2 + "_" + (s3 + "_" + (s4 + "_" + s5))), t0, t1 + "_" + (t2 + "_" + (t3 + "_" + (t4 + "_" + t5))));
    SplitEqual(s1, s2 + "_" + (s3 + "_" + (s4 + "_" + s5)), t1, t2 + "_" + (t3 + "_" + (t4 + "_" + t5)));
    SplitEqual(s2, s3 + "_" + (s4 + "_" + s5), t2, t3 + "_" + (t4 + "_" + t5));
    SplitEqual(s3, s4 + "_" + s5, t3, t4 + "_" + t5);
    SplitEqual(s4, s5, t4, t5);
    IntToStringInjective(c.regionX, d.regionX);
    IntToStringInjective(c.regionY, d.regionY);
    IntToStringInjective(c.regionZ, d.regionZ);
    IntToStringInjective(c.chunkX, d.chunkX);
    IntToStringInjective(c.chunkY, d.chunkY);
    IntToStringInjective(c.chunkZ, d.chunkZ);
  }

  /** A chunk key starts with its region's key and a `_`. */
  lemma KeyOfRegion(c: ChunkRef)
    ensures var rest := IntToString(c.chunkX) + "_" + IntToString(c.chunkY) + "_" + IntToString(c.chunkZ);
      ChunkKey(c) == WorldLoader.RegionKey(c.regionX, c.regionY, c.regionZ) + "_" + rest
  {
  }

  /**
   * With the separator after the region key, the prefix test of
   * `unloadRegionIfAllChunksUnloaded` matches exactly the chunks of that
   * region.
   */
  lemma SeparatorPrefixMatchesRegion(rx: int, ry: int, rz: int, c: ChunkRef)
    ensures StartsWith(ChunkKey(c), WorldLoader.RegionKey(rx, ry, rz) + "_")
      <==> c.regionX == rx && c.regionY == ry && c.regionZ == rz
  {
    var p := WorldLoader.RegionKey(rx, ry, rz) + "_";
    KeyOfRegion(c);
    if StartsWith(ChunkKey(c), p) {
      var s0, s1, s2 := IntToString(c.regionX), IntToString(c.regionY), IntToString(c.regionZ);
      var s3, s4, s5 := IntToString(c.chunkX), IntToString(c.chunkY), IntToString(c.chunkZ);
      var t0, t1, t2 := IntToString(rx), IntToString(ry), IntToString(rz);
      var rest := s3 + "_" + (s4 + "_" + s5);
      NoSeparator(c.regionX); NoSeparator(c.regionY); NoSeparator(c.regionZ);
      NoSeparator(rx); NoSeparator(ry); NoSeparator(rz);
      KeyNested(c);
      RegionPrefixNested(rx, ry, rz);
      CutAtSeparator(t0, t1 + "_" + (t2 + "_" + ""), s0, s1 + "_" + (s2 + "_" + rest));
      CutAtSeparator(t1, t2 + "_" + "", s1, s2 + "_" + rest);
      CutAtSeparator(t2, "", s2, rest);
      IntToStringInjective(c.regionX, rx);
      IntToStringInjective(c.regionY, ry);
      IntToStringInjective(c.regionZ, rz);
    }
  }

  /**
   * The prefix test as written, without the separator, also matches chunks
   * of other regions: the key of chunk (0, 0, 0) of region (1, 2, 34) starts
   * with `"1_2_3"`, the key of region (1, 2, 3).
   */
  lemma BarePrefixMatchesOtherRegion()
    ensures StartsWith(ChunkKey(ChunkRef(1, 2, 34, 0, 0, 0)), WorldLoader.RegionKey(1, 2, 3))
  {
    assert IntToString(1) == "1" && IntToString(2) == "2" && IntToString(3) == "3";
    assert IntToString(34) == "34" && IntToString(0) == "0";
    assert ChunkKey(ChunkRef(1, 2, 34, 0, 0, 0)) == "1_2_34_0_0_0";
  }

  /** `[...loadedChunks].some(chunkKey => chunkKey.startsWith(prefix))`. */
  predicate SomeKeyStartsWith(keys: set<string>, prefix: string)
  {
    exists k :: k in keys && StartsWith(k, prefix)
  }

  /** With the separator, the test finds a loaded chunk of the region exactly when there is one. */
  lemma SeparatorTestFindsRegionChunks(chunks: set<ChunkRef>, rx: int, ry: int, rz: int)
    ensures SomeKeyStartsWith(set c | c in chunks :: ChunkKey(c), WorldLoader.RegionKey(rx, ry, rz) + "_")
      <==> exists c :: c in chunks && c.regionX == rx && c.regionY == ry && c.regionZ == rz
  {
    var keys := set c | c in chunks :: ChunkKey(c);
    var prefix := WorldLoader.RegionKey(rx, ry, rz) + "_";
    if SomeKeyStartsWith(keys, prefix) {
      var k :| k in keys && StartsWith(k, prefix);
      var c :| c in chunks && k == ChunkKey(c);
      SeparatorPrefixMatchesRegion(rx, ry, rz, c);
    }
    if c :| c in chunks && c.regionX == rx && c.regionY == ry && c.regionZ == rz {
      SeparatorPrefixMatchesRegion(rx, ry, rz, c);
      assert ChunkKey(c) in keys;
    }
  }

  // ---------------------------------------------------------------- chunks around the player

  /** `Math.floor(p / REGION_SPAN)`: the region holding world coordinate `p`. */
  function CurrentRegion(p: real): int
  {
    Floor(p / 120.0)
  }

  /** `Math.floor((p - region · REGION_SPAN) / CHUNK_SIZE)`: the chunk of that region holding `p`. */
  function CurrentChunk(p: real): int
  {
    Floor((p - (CurrentRegion(p) * 120) as real) / 30.0)
  }

  /** The player's chunk lies in the region's grid and holds the player: `120·r + 30·c <= p < 120·r + 30·c + 30`. */
  lemma CurrentChunkHoldsPlayer(p: real)
    ensures 0 <= CurrentChunk(p) < 4
    ensures ((CurrentRegion(p) * 120 + CurrentChunk(p) * 30) as real) <= p < ((CurrentRegion(p) * 120 + CurrentChunk(p) * 30 + 30) as real)
  {
    var r := CurrentRegion(p);
    var off := p - (r * 120) as real;
    assert (r as real) * 120.0 <= p < (r as real) * 120.0 + 120.0 by {
      RealDivBounds(p, 120.0, r as real);
      RealDivBounds(p, 120.0, r as real + 1.0);
    }
    assert 0.0 <= off < 120.0;
    var c := CurrentChunk(p);
    RealDivBounds(off, 30.0, c as real);
    RealDivBounds(off, 30.0, c as real + 1.0);
    assert (c as real) * 30.0 <= off < (c as real) * 30.0 + 30.0;
  }

  /** `currentRegion + Math.floor(w / GRID)`: the region of grid coordinate `w` counted from `region`. */
  function AdjRegion(region: int, w: int): int
  {
    region + w / 4
  }

  /** `(w % GRID + GRID) % GRID` with the truncating `%`. */
  function AdjChunk(w: int): int
  {
    JsRem(JsRem(w, 4) + 4, 4)
  }

  /** Wrapping keeps the chunk in the grid and the global chunk coordinate `4·region + chunk` unchanged. */
  lemma Wraps(region: int, w: int)
    ensures 0 <= AdjChunk(w) < 4
    ensures 4 * AdjRegion(region, w) + AdjChunk(w) == 4 * region + w
  {
    JsRemToFloorMod(w, 4);
    var m := JsRem(w, 4);
    assert AdjChunk(w) == w % 4 by {
      if m < 0 {
        assert AdjChunk(w) == (m + 4) % 4;
      } else {
        ModUnique(m + 4, 4, 1, m);
      }
    }
  }

  /** The global chunk coordinate of a chunk on one axis. */
  function Global(region: int, chunk: int): int
  {
    4 * region + chunk
  }

  /** A chunk is named by its global coordinates: two chunks of the grid with the same ones are the same. */
  lemma GlobalUnique(r1: int, c1: int, r2: int, c2: int)
    requires 0 <= c1 < 4 && 0 <= c2 < 4 && Global(r1, c1) == Global(r2, c2)
    ensures r1 == r2 && c1 == c2
  {
    ModUnique(Global(r1, c1), 4, r1, c1);
    ModUnique(Global(r2, c2), 4, r2, c2);
  }

  /** The chunk at offset `(dx, dy, dz)` from the chunk `center`, wrapped into its region. */
  function Neighbour(center: ChunkRef, dx: int, dy: int, dz: int): ChunkRef
  {
    var wx, wy, wz := center.chunkX + dx, center.chunkY + dy, center.chunkZ + dz;
    ChunkRef(AdjRegion(center.regionX, wx), AdjRegion(center.regionY, wy), AdjRegion(center.regionZ, wz),
             AdjChunk(wx), AdjChunk(wy), AdjChunk(wz))
  }

  /** Whether a chunk lies in the grid of its region. */
  predicate InGrid(c: ChunkRef)
  {
    0 <= c.chunkX < 4 && 0 <= c.chunkY < 4 && 0 <= c.chunkZ < 4
  }

  /** The neighbour at `d` is the chunk of the grid whose global coordinates are the center's plus `d`. */
  lemma NeighbourIsOffset(center: ChunkRef, dx: int, dy: int, dz: int)
    ensures var n := Neighbour(center, dx, dy, dz);
      && InGrid(n)
      && Global(n.regionX, n.chunkX) == Global(center.regionX, center.chunkX) + dx
      && Global(n.regionY, n.chunkY) == Global(center.regionY, center.chunkY) + dy
      && Global(n.regionZ, n.chunkZ) == Global(center.regionZ, center.chunkZ) + dz
  {
    Wraps(center.regionX, center.chunkX + dx);
    Wraps(center.regionY, center.chunkY + dy);
    Wraps(center.regionZ, center.chunkZ + dz);
  }

  /** `d` lies in `[lo, hi]`. */
  predicate Within(d: int, lo: int, hi: int)
  {
    lo <= d <= hi
  }

  /** `2·radius + 1`, the offsets each loop visits, or none for a negative radius. */
  function Side(radius: int): nat
  {
    if 0 <= radius then 2 * radius + 1 else 0
  }

  /** The innermost loop of `findChunksToLoad` after `n` turns: the neighbours with `dz` from `-radius` to `n - 1 - radius`. */
  function Column(center: ChunkRef, radius: int, dx: int, dy: int, n: nat): (r: seq<ChunkRef>)
    ensures |r| == n
  {
    if n == 0 then [] else Column(center, radius, dx, dy, n - 1) + [Neighbour(center, dx, dy, n - 1 - radius)]
  }

  /** The middle loop after `n` turns: `n` columns, `dy` from `-radius` on, each a full `dz` run. */
  function Slab(center: ChunkRef, radius: int, dx: int, n: nat): seq<ChunkRef>
  {
    if n == 0 then [] else Slab(center, radius, dx, n - 1) + Column(center, radius, dx, n - 1 - radius, Side(radius))
  }

  /** The outer loop after `n` turns: `n` slabs, `dx` from `-radius` on, each a full `dy` run. */
  function Hood(center: ChunkRef, radius: int, n: nat): seq<ChunkRef>
  {
    if n == 0 then [] else Hood(center, radius, n - 1) + Slab(center, radius, n - 1 - radius, Side(radius))
  }

  /** Every chunk the loops of `findChunksToLoad` consider, in their order. */
  function Neighbourhood(center: ChunkRef, radius: int): seq<ChunkRef>
  {
    Hood(center, radius, Side(radius))
  }

  /** `c` is the neighbour at some `dz` in `[-radius, hi]` of column `(dx, dy)`. */
  ghost predicate InColumn(center: ChunkRef, radius: int, dx: int, dy: int, hi: int, c: ChunkRef)
  {
    exists d :: Within(d, -radius, hi) && c == Neighbour(center, dx, dy, d)
  }

  /** `c` lies in a full column of slab `dx` with `dy` in `[-radius, hi]`. */
  ghost predicate InSlab(center: ChunkRef, radius: int, dx: int, hi: int, c: ChunkRef)
  {
    exists e :: Within(e, -radius, hi) && InColumn(center, radius, dx, e, radius, c)
  }

  /** `c` lies in a full slab with `dx` in `[-radius, hi]`. */
  ghost predicate InHood(center: ChunkRef, radius: int, hi: int, c: ChunkRef)
  {
    exists f :: Within(f, -radius, hi) && InSlab(center, radius, f, radius, c)
  }

  /** The last offset a full loop visits is `radius`; for a negative radius no offset is visited either way. */
  lemma FullRange(radius: int, d: int)
    ensures Within(d, -radius, Side(radius) - 1 - radius) <==> Within(d, -radius, radius)
  {
  }

  /** A column after `n` turns holds the neighbours with `dz` in `[-radius, n - 1 - radius]`, and nothing else. */
  lemma {:induction false} ColumnMembers(center: ChunkRef, radius: int, dx: int, dy: int, n: nat, c: ChunkRef)
    ensures c in Column(center, radius, dx, dy, n) <==> InColumn(center, radius, dx, dy, n - 1 - radius, c)
    decreases n
  {
    if n > 0 {
      var last := n - 1 - radius;
      ColumnMembers(center, radius, dx, dy, n - 1, c);
      assert Column(center, radius, dx, dy, n) == Column(center, radius, dx, dy, n - 1) + [Neighbour(center, dx, dy, last)];
      ColumnStep(center, radius, dx, dy, n - 1 - 1 - radius, last, c);
    }
  }

  /** Raising the last `dz` of a column by one adds the neighbour at that `dz`. */
  lemma ColumnStep(center: ChunkRef, radius: int, dx: int, dy: int, prev: int, last: int, c: ChunkRef)
    requires prev + 1 == last && -radius <= last
    ensures InColumn(center, radius, dx, dy, last, c) <==>
      InColumn(center, radius, dx, dy, prev, c) || c == Neighbour(center, dx, dy, last)
  {
    if c == Neighbour(center, dx, dy, last) {
      assert Within(last, -radius, last);
    }
    if InColumn(center, radius, dx, dy, last, c) {
      var d :| Within(d, -radius, last) && c == Neighbour(center, dx, dy, d);
      if d < last {
        assert Within(d, -radius, prev);
      }
    }
    if InColumn(center, radius, dx, dy, prev, c) {
      var d :| Within(d, -radius, prev) && c == Neighbour(center, dx, dy, d);
      assert Within(d, -radius, last);
    }
  }

  /** A full column holds the neighbours with `dz` in `[-radius, radius]`. */
  lemma FullColumnMembers(center: ChunkRef, radius: int, dx: int, dy: int, c: ChunkRef)
    ensures c in Column(center, radius, dx, dy, Side(radius)) <==> InColumn(center, radius, dx, dy, radius, c)
  {
    ColumnMembers(center, radius, dx, dy, Side(radius), c);
    if InColumn(center, radius, dx, dy, radius, c) {
      var d :| Within(d, -radius, radius) && c == Neighbour(center, dx, dy, d);
      FullRange(radius, d);
    }
    if InColumn(center, radius, dx, dy, Side(radius) - 1 - radius, c) {
      var d :| Within(d, -radius, Side(radius) - 1 - radius) && c == Neighbour(center, dx, dy, d);
      FullRange(radius, d);
    }
  }

  /** A slab after `n` turns holds the full columns with `dy` in `[-radius, n - 1 - radius]`, and nothing else. */
  lemma {:induction false} SlabMembers(center: ChunkRef, radius: int, dx: int, n: nat, c: ChunkRef)
    ensures c in Slab(center, radius, dx, n) <==> InSlab(center, radius, dx, n - 1 - radius, c)
    decreases n
  {
    if n > 0 {
      var last := n - 1 - radius;
      SlabMembers(center, radius, dx, n - 1, c);
      FullColumnMembers(center, radius, dx, last, c);
      assert Slab(center, radius, dx, n) == Slab(center, radius, dx, n - 1) + Column(center, radius, dx, last, Side(radius));
      SlabStep(center, radius, dx, n - 1 - 1 - radius, last, c);
    }
  }

  /** Raising the last `dy` of a slab by one adds the full column at that `dy`. */
  lemma SlabStep(center: ChunkRef, radius: int, dx: int, prev: int, last: int, c: ChunkRef)
    requires prev + 1 == last && -radius <= last
    ensures InSlab(center, radius, dx, last, c) <==>
      InSlab(center, radius, dx, prev, c) || InColumn(center, radius, dx, last, radius, c)
  {
    if InColumn(center, radius, dx, last, radius, c) {
      assert Within(last, -radius, last);
    }
    if InSlab(center, radius, dx, last, c) {
      var e :| Within(e, -radius, last) && InColumn(center, radius, dx, e, radius, c);
      if e < last {
        assert Within(e, -radius, prev);
      }
    }
    if InSlab(center, radius, dx, prev, c) {
      var e :| Within(e, -radius, prev) && InColumn(center, radius, dx, e, radius, c);
      assert Within(e, -radius, last);
    }
  }

  /** A full slab holds the full columns with `dy` in `[-radius, radius]`. */
  lemma FullSlabMembers(center: ChunkRef, radius: int, dx: int, c: ChunkRef)
    ensures c in Slab(center, radius, dx, Side(radius)) <==> InSlab(center, radius, dx, radius, c)
  {
    SlabMembers(center, radius, dx, Side(radius), c);
    if InSlab(center, radius, dx, radius, c) {
      var e :| Within(e, -radius, radius) && InColumn(center, radius, dx, e, radius, c);
      FullRange(radius, e);
    }
    if InSlab(center, radius, dx, Side(radius) - 1 - radius, c) {
      var e :| Within(e, -radius, Side(radius) - 1 - radius) && InColumn(center, radius, dx, e, radius, c);
      FullRange(radius, e);
    }
  }

  /** The loops after `n` outer turns hold the full slabs with `dx` in `[-radius, n - 1 - radius]`, and nothing else. */
  lemma {:induction false} HoodMembers(center: ChunkRef, radius: int, n: nat, c: ChunkRef)
    ensures c in Hood(center, radius, n) <==> InHood(center, radius, n - 1 - radius, c)
    decreases n
  {
    if n > 0 {
      var last := n - 1 - radius;
      HoodMembers(center, radius, n - 1, c);
      FullSlabMembers(center, radius, last, c);
      assert Hood(center, radius, n) == Hood(center, radius, n - 1) + Slab(center, radius, last, Side(radius));
      HoodStep(center, radius, n - 1 - 1 - radius, last, c);
    }
  }

  /** Raising the last `dx` by one adds the full slab at that `dx`. */
  lemma HoodStep(center: ChunkRef, radius: int, prev: int, last: int, c: ChunkRef)
    requires prev + 1 == last && -radius <= last
    ensures InHood(center, radius, last, c) <==> InHood(center, radius, prev, c) || InSlab(center, radius, last, radius, c)
  {
    if InSlab(center, radius, last, radius, c) {
      assert Within(last, -radius, last);
    }
    if InHood(center, radius, last, c) {
      var f :| Within(f, -radius, last) && InSlab(center, radius, f, radius, c);
      if f < last {
        assert Within(f, -radius, prev);
      }
    }
    if InHood(center, radius, prev, c) {
      var f :| Within(f, -radius, prev) && InSlab(center, radius, f, radius, c);
      assert Within(f, -radius, last);
    }
  }

  /**
   * The neighbourhood holds exactly the chunks of the grid whose global
   * chunk coordinates differ from the center's by at most `radius` on each
   * axis.
   */
  lemma NeighbourhoodMembers(center: ChunkRef, radius: int, n: ChunkRef)
    ensures n in Neighbourhood(center, radius) <==>
      && InGrid(n)
      && Within(Global(n.regionX, n.chunkX) - Global(center.regionX, center.chunkX), -radius, radius)
      && Within(Global(n.regionY, n.chunkY) - Global(center.regionY, center.chunkY), -radius, radius)
      && Within(Global(n.regionZ, n.chunkZ) - Global(center.regionZ, center.chunkZ), -radius, radius)
  {
    HoodMembers(center, radius, Side(radius), n);
    var f := Global(n.regionX, n.chunkX) - Global(center.regionX, center.chunkX);
    var e := Global(n.regionY, n.chunkY) - Global(center.regionY, center.chunkY);
    var d := Global(n.regionZ, n.chunkZ) - Global(center.regionZ, center.chunkZ);
    if n in Neighbourhood(center, radius) {
      var f' :| Within(f', -radius, Side(radius) - 1 - radius) && InSlab(center, radius, f', radius, n);
      var e' :| Within(e', -radius, radius) && InColumn(center, radius, f', e', radius, n);
      var d' :| Within(d', -radius, radius) && n == Neighbour(center, f', e', d');
      FullRange(radius, f');
      NeighbourIsOffset(center, f', e', d');
    }
    if InGrid(n) && Within(f, -radius, radius) && Within(e, -radius, radius) && Within(d, -radius, radius) {
      var m := Neighbour(center, f, e, d);
      NeighbourIsOffset(center, f, e, d);
      GlobalUnique(m.regionX, m.chunkX, n.regionX, n.chunkX);
      GlobalUnique(m.regionY, m.chunkY, n.regionY, n.chunkY);
      GlobalUnique(m.regionZ, m.chunkZ, n.regionZ, n.chunkZ);
      assert n == m;
      assert InColumn(center, radius, f, e, radius, n);
      assert InSlab(center, radius, f, radius, n);
      FullRange(radius, f);
      assert Within(f, -radius, Side(radius) - 1 - radius);
    }
  }

  /** A slab after `n` turns holds `n` columns of `2·radius + 1`. */
  lemma {:induction false} SlabLength(center: ChunkRef, radius: int, dx: int, n: nat)
    ensures |Slab(center, radius, dx, n)| == n * Side(radius)
    decreases n
  {
    if n > 0 {
      SlabLength(center, radius, dx, n - 1);
      assert (n - 1) * Side(radius) + Side(radius) == n * Side(radius);
    }
  }

  /** The loops after `n` outer turns have considered `n` slabs of `(2·radius + 1)²`. */
  lemma {:induction false} HoodLength(center: ChunkRef, radius: int, n: nat)
    ensures |Hood(center, radius, n)| == n * (Side(radius) * Side(radius))
    decreases n
  {
    if n > 0 {
      var side := Side(radius);
      HoodLength(center, radius, n - 1);
      SlabLength(center, radius, n - 1 - radius, side);
      assert (n - 1) * (side * side) + side * side == n * (side * side);
    }
  }

  /** The loops consider `(2·radius + 1)³` chunks, and none for a negative radius. */
  lemma NeighbourhoodSize(center: ChunkRef, radius: int)
    ensures radius >= 0 ==> var side := 2 * radius + 1; |Neighbourhood(center, radius)| == side * side * side
    ensures radius < 0 ==> Neighbourhood(center, radius) == []
  {
    var side := Side(radius);
    HoodLength(center, radius, side);
    assert side * (side * side) == side * side * side;
  }

  /** The chunks of `s` whose keys are not in `loaded`, in their order. */
  function Unloaded(loaded: set<string>, s: seq<ChunkRef>): (r: seq<ChunkRef>)
    ensures |r| <= |s|
  {
    if s == [] then []
    else (if ChunkKey(s[0]) in loaded then [] else [s[0]]) + Unloaded(loaded, s[1..])
  }

  /** The filter keeps exactly the chunks whose keys are not loaded. */
  lemma {:induction false} UnloadedMembers(loaded: set<string>, s: seq<ChunkRef>, c: ChunkRef)
    ensures c in Unloaded(loaded, s) <==> c in s && ChunkKey(c) !in loaded
  {
    if s != [] {
      UnloadedMembers(loaded, s[1..], c);
      assert c in s <==> c == s[0] || c in s[1..];
    }
  }

  /** The chunk at position `i` of a column is the neighbour at `dz = i - radius`. */
  lemma {:induction false} ColumnAt(center: ChunkRef, radius: int, dx: int, dy: int, n: nat, i: int)
    requires 0 <= i < n
    ensures Column(center, radius, dx, dy, n)[i] == Neighbour(center, dx, dy, i - radius)
    decreases n
  {
    if i < n - 1 {
      ColumnAt(center, radius, dx, dy, n - 1, i);
    }
  }

  /** The neighbours a loop over `dz` visits, position by position. */
  predicate IsColumnRun(center: ChunkRef, radius: int, dx: int, dy: int, run: seq<ChunkRef>)
  {
    && |run| == Side(radius)
    && forall dz :: -radius <= dz <= radius ==> run[dz + radius] == Neighbour(center, dx, dy, dz)
  }

  /** A full column is the one sequence of neighbours a loop over `dz` visits. */
  lemma ColumnRun(center: ChunkRef, radius: int, dx: int, dy: int, run: seq<ChunkRef>)
    ensures IsColumnRun(center, radius, dx, dy, run) <==> run == Column(center, radius, dx, dy, Side(radius))
  {
    var z := Column(center, radius, dx, dy, Side(radius));
    forall dz | -radius <= dz <= radius
      ensures z[dz + radius] == Neighbour(center, dx, dy, dz)
    {
      ColumnAt(center, radius, dx, dy, Side(radius), dz + radius);
    }
    if IsColumnRun(center, radius, dx, dy, run) {
      forall j | 0 <= j < |run|
        ensures run[j] == z[j]
      {
        var dz := j - radius;
        assert run[dz + radius] == Neighbour(center, dx, dy, dz) == z[dz + radius];
      }
    }
  }

  /** The filter over one more element: the chunk at `i` is appended unless its key is loaded. */
  lemma UnloadedSnoc(loaded: set<string>, s: seq<ChunkRef>, i: int, c: ChunkRef)
    requires 0 <= i < |s| && s[i] == c
    ensures ChunkKey(c) in loaded ==> Unloaded(loaded, s[..i + 1]) == Unloaded(loaded, s[..i])
    ensures ChunkKey(c) !in loaded ==> Unloaded(loaded, s[..i + 1]) == Unloaded(loaded, s[..i]) + [c]
  {
    assert s[..i + 1] == s[..i] + [c];
    UnloadedAppend(loaded, s[..i], [c]);
    assert [c][1..] == [];
  }

  /** The columns of slab `dx`, one run per `dy`, in the order the middle loop visits them. */
  predicate IsSlabRuns(center: ChunkRef, radius: int, dx: int, cols: seq<seq<ChunkRef>>)
  {
    && |cols| == Side(radius)
    && forall i :: 0 <= i < |cols| ==> IsColumnRun(center, radius, dx, i - radius, cols[i])
  }

  /** The slabs of the neighbourhood, one per `dx`, in the order the outer loop visits them. */
  predicate IsHoodRuns(center: ChunkRef, radius: int, slabs: seq<seq<seq<ChunkRef>>>)
  {
    && |slabs| == Side(radius)
    && forall i :: 0 <= i < |slabs| ==> IsSlabRuns(center, radius, i - radius, slabs[i])
  }

  /** The runs one after the other. */
  function Flatten(runs: seq<seq<ChunkRef>>): seq<ChunkRef>
  {
    if runs == [] then [] else Flatten(runs[..|runs| - 1]) + runs[|runs| - 1]
  }

  /** The slabs one after the other, each flattened. */
  function FlattenSlabs(slabs: seq<seq<seq<ChunkRef>>>): seq<ChunkRef>
  {
    if slabs == [] then [] else FlattenSlabs(slabs[..|slabs| - 1]) + Flatten(slabs[|slabs| - 1])
  }

  /** The last run split off a flattening. */
  lemma FlattenSnoc(runs: seq<seq<ChunkRef>>, k: int)
    requires 0 < k <= |runs|
    ensures Flatten(runs[..k]) == Flatten(runs[..k - 1]) + runs[k - 1]
  {
    assert runs[..k][..k - 1] == runs[..k - 1];
  }

  /** The last slab split off a flattening. */
  lemma FlattenSlabsSnoc(slabs: seq<seq<seq<ChunkRef>>>, k: int)
    requires 0 < k <= |slabs|
    ensures FlattenSlabs(slabs[..k]) == FlattenSlabs(slabs[..k - 1]) + Flatten(slabs[k - 1])
  {
    assert slabs[..k][..k - 1] == slabs[..k - 1];
  }

  /** The middle loop's step: the unloaded chunks of one more column are appended. */
  lemma FlattenStep(loaded: set<string>, runs: seq<seq<ChunkRef>>, i: int, before: seq<ChunkRef>, column: seq<ChunkRef>)
    requires 0 <= i < |runs|
    requires before == Unloaded(loaded, Flatten(runs[..i])) && column == Unloaded(loaded, runs[i])
    ensures before + column == Unloaded(loaded, Flatten(runs[..i + 1]))
  {
    FlattenSnoc(runs, i + 1);
    UnloadedAppend(loaded, Flatten(runs[..i]), runs[i]);
  }

  /** The outer loop's step: the unloaded chunks of one more slab are appended. */
  lemma FlattenSlabsStep(loaded: set<string>, slabs: seq<seq<seq<ChunkRef>>>, i: int, before: seq<ChunkRef>, slab: seq<ChunkRef>)
    requires 0 <= i < |slabs|
    requires before == Unloaded(loaded, FlattenSlabs(slabs[..i])) && slab == Unloaded(loaded, Flatten(slabs[i]))
    ensures before + slab == Unloaded(loaded, FlattenSlabs(slabs[..i + 1]))
  {
    FlattenSlabsSnoc(slabs, i + 1);
    UnloadedAppend(loaded, FlattenSlabs(slabs[..i]), Flatten(slabs[i]));
  }

  /** The first `k` full columns of slab `dx`, one after the other, are the slab after `k` turns of the middle loop. */
  lemma {:induction false} SlabRunsPrefix(center: ChunkRef, radius: int, dx: int, cols: seq<seq<ChunkRef>>, k: nat)
    requires k <= |cols|
    requires forall i :: 0 <= i < k ==> cols[i] == Column(center, radius, dx, i - radius, Side(radius))
    ensures Flatten(cols[..k]) == Slab(center, radius, dx, k)
    decreases k
  {
    if k > 0 {
      SlabRunsPrefix(center, radius, dx, cols, k - 1);
      FlattenSnoc(cols, k);
    }
  }

  /** A slab's columns, one after the other, are the whole slab. */
  lemma SlabRunsFlatten(center: ChunkRef, radius: int, dx: int, cols: seq<seq<ChunkRef>>)
    requires IsSlabRuns(center, radius, dx, cols)
    ensures Flatten(cols) == Slab(center, radius, dx, Side(radius))
  {
    forall i | 0 <= i < |cols|
      ensures cols[i] == Column(center, radius, dx, i - radius, Side(radius))
    {
      ColumnRun(center, radius, dx, i - radius, cols[i]);
    }
    SlabRunsPrefix(center, radius, dx, cols, |cols|);
    assert cols[..|cols|] == cols;
  }

  /** The first `k` slabs, each flattened to a whole slab, are the neighbourhood after `k` turns of the outer loop. */
  lemma {:induction false} HoodRunsPrefix(center: ChunkRef, radius: int, slabs: seq<seq<seq<ChunkRef>>>, k: nat)
    requires k <= |slabs|
    requires forall i :: 0 <= i < k ==> Flatten(slabs[i]) == Slab(center, radius, i - radius, Side(radius))
    ensures FlattenSlabs(slabs[..k]) == Hood(center, radius, k)
    decreases k
  {
    if k > 0 {
      HoodRunsPrefix(center, radius, slabs, k - 1);
      FlattenSlabsSnoc(slabs, k);
    }
  }

  /** The slabs, one after the other, are the neighbourhood in the loops' order. */
  lemma HoodRunsFlatten(center: ChunkRef, radius: int, slabs: seq<seq<seq<ChunkRef>>>)
    requires IsHoodRuns(center, radius, slabs)
    ensures FlattenSlabs(slabs) == Neighbourhood(center, radius)
  {
    forall i | 0 <= i < |slabs|
      ensures Flatten(slabs[i]) == Slab(center, radius, i - radius, Side(radius))
    {
      SlabRunsFlatten(center, radius, i - radius, slabs[i]);
    }
    HoodRunsPrefix(center, radius, slabs, |slabs|);
    assert slabs[..|slabs|] == slabs;
  }

  /** The neighbourhood cut into the slabs and columns the loops visit. */
  lemma HoodRunsExist(center: ChunkRef, radius: int) returns (slabs: seq<seq<seq<ChunkRef>>>)
    ensures IsHoodRuns(center, radius, slabs)
  {
    var side := Side(radius);
    slabs := seq(side, i => seq(side, j => Column(center, radius, i - radius, j - radius, side)));
    forall i, j | 0 <= i < side && 0 <= j < side
      ensures IsColumnRun(center, radius, i - radius, j - radius, slabs[i][j])
    {
      ColumnRun(center, radius, i - radius, j - radius, slabs[i][j]);
    }
  }

  /** Filtering a concatenation filters each part. */
  lemma {:induction false} UnloadedAppend(loaded: set<string>, a: seq<ChunkRef>, b: seq<ChunkRef>)
    ensures Unloaded(loaded, a + b) == Unloaded(loaded, a) + Unloaded(loaded, b)
  {
    if a == [] {
      assert a + b == b;
    } else {
      assert (a + b)[1..] == a[1..] + b;
      assert (a + b)[0] == a[0];
      UnloadedAppend(loaded, a[1..], b);
      var head := if ChunkKey(a[0]) in loaded then [] else [a[0]];
      assert Unloaded(loaded, a + b) == head + Unloaded(loaded, a[1..] + b);
    }
  }

  // ---------------------------------------------------------------- the shell of a chunk

  /** Where a chunk's core begins in the window: `(region − windowOrigin)·120 + chunk·30` on each axis. */
  function ShellOrigin(windowOrigin: (int, int, int), c: ChunkRef): (int, int, int)
  {
    ((c.regionX - windowOrigin.0) * 120 + c.chunkX * 30,
     (c.regionY - windowOrigin.1) * 120 + c.chunkY * 30,
     (c.regionZ - windowOrigin.2) * 120 + c.chunkZ * 30)
  }

  /** `x + y·32 + z·32²`, the index of shell cell `(x, y, z)`. */
  function ShellIndex(x: int, y: int, z: int): int
  {
    x + 32 * y + 1024 * z
  }

  /** The shell cell at index `i`. */
  function ShellCellOf(i: int): (c: (int, int, int))
    requires 0 <= i < SHELL_BYTES
    ensures 0 <= c.0 < 32 && 0 <= c.1 < 32 && 0 <= c.2 < 32
    ensures ShellIndex(c.0, c.1, c.2) == i
  {
    (i % 32, (i / 32) % 32, i / 1024)
  }

  /** Every shell cell has its own index. */
  lemma ShellCellOfIndex(x: int, y: int, z: int)
    requires 0 <= x < 32 && 0 <= y < 32 && 0 <= z < 32
    ensures 0 <= ShellIndex(x, y, z) < SHELL_BYTES && ShellCellOf(ShellIndex(x, y, z)) == (x, y, z)
  {
    ModUnique(ShellIndex(x, y, z), 32, y + 32 * z, x);
    ModUnique(y + 32 * z, 32, z, y);
    ModUnique(ShellIndex(x, y, z), 1024, z, x + 32 * y);
  }

  /** Shell cell `(x, y, z)`: the window at `origin + (x − 1, y − 1, z − 1)` when that lies in the window, 0 otherwise. */
  function ShellCell(window: seq<byte>, origin: (int, int, int), x: int, y: int, z: int): byte
    requires |window| == VoxelWindow.WINDOW_BYTES
  {
    var gx, gy, gz := origin.0 + x - 1, origin.1 + y - 1, origin.2 + z - 1;
    if 0 <= gx < 360 && 0 <= gy < 360 && 0 <= gz < 360 then
      VoxelWindow.CellOfIndex(gx, gy, gz);
      window[VoxelWindow.WindowIndex(gx, gy, gz)]
    else 0
  }

  /** The shell `getChunkDataWithShell` returns for the chunk whose core begins at `origin`. */
  function Shell(window: seq<byte>, origin: (int, int, int)): (r: seq<byte>)
    requires |window| == VoxelWindow.WINDOW_BYTES
    ensures |r| == SHELL_BYTES
  {
    seq(SHELL_BYTES, i requires 0 <= i < SHELL_BYTES =>
      var c := ShellCellOf(i); ShellCell(window, origin, c.0, c.1, c.2))
  }

  /** The position of shell cell `(x, y, z)` in the loops of `getChunkDataWithShell`: x outermost, z innermost. */
  function ShellOrder(x: int, y: int, z: int): int
  {
    1024 * x + 32 * y + z
  }

  /** The shell once the first `p` cells in the loops' order have been visited; unvisited cells are still 0. */
  function ShellAfter(window: seq<byte>, origin: (int, int, int), p: int): (r: seq<byte>)
    requires |window| == VoxelWindow.WINDOW_BYTES
    ensures |r| == SHELL_BYTES
  {
    seq(SHELL_BYTES, i requires 0 <= i < SHELL_BYTES =>
      var c := ShellCellOf(i);
      if ShellOrder(c.0, c.1, c.2) < p then ShellCell(window, origin, c.0, c.1, c.2) else 0)
  }

  /** The loops visit each shell cell once: no two cells share a position. */
  lemma ShellOrderInjective(x1: int, y1: int, z1: int, x2: int, y2: int, z2: int)
    requires 0 <= x1 < 32 && 0 <= y1 < 32 && 0 <= z1 < 32 && 0 <= x2 < 32 && 0 <= y2 < 32 && 0 <= z2 < 32
    requires ShellOrder(x1, y1, z1) == ShellOrder(x2, y2, z2)
    ensures x1 == x2 && y1 == y2 && z1 == z2
  {
    var p := ShellOrder(x1, y1, z1);
    ModUnique(p, 32, 32 * x1 + y1, z1);
    ModUnique(p, 32, 32 * x2 + y2, z2);
    ModUnique(32 * x1 + y1, 32, x1, y1);
    ModUnique(32 * x2 + y2, 32, x2, y2);
  }

  /** Visiting one more cell fills that cell and no other. */
  lemma ShellStep(window: seq<byte>, origin: (int, int, int), x: int, y: int, z: int)
    requires |window| == VoxelWindow.WINDOW_BYTES && 0 <= x < 32 && 0 <= y < 32 && 0 <= z < 32
    ensures 0 <= ShellIndex(x, y, z) < SHELL_BYTES
    ensures ShellAfter(window, origin, ShellOrder(x, y, z))[ShellIndex(x, y, z)] == 0
    ensures ShellAfter(window, origin, ShellOrder(x, y, z) + 1)
      == ShellAfter(window, origin, ShellOrder(x, y, z))[ShellIndex(x, y, z) := ShellCell(window, origin, x, y, z)]
    ensures ShellCell(window, origin, x, y, z) == 0 ==>
      ShellAfter(window, origin, ShellOrder(x, y, z) + 1) == ShellAfter(window, origin, ShellOrder(x, y, z))
  {
    ShellCellOfIndex(x, y, z);
    var p := ShellOrder(x, y, z);
    forall i | 0 <= i < SHELL_BYTES && i != ShellIndex(x, y, z)
      ensures ShellAfter(window, origin, p + 1)[i] == ShellAfter(window, origin, p)[i]
    {
      var c := ShellCellOf(i);
      if ShellOrder(c.0, c.1, c.2) == p {
        ShellOrderInjective(c.0, c.1, c.2, x, y, z);
      }
    }
  }

  /** Once every cell has been visited, the shell is complete; before the first, it is all zero. */
  lemma ShellEnds(window: seq<byte>, origin: (int, int, int))
    requires |window| == VoxelWindow.WINDOW_BYTES
    ensures ShellAfter(window, origin, SHELL_BYTES) == Shell(window, origin)
    ensures ShellAfter(window, origin, 0) == seq(SHELL_BYTES, _ => 0)
  {
  }

  /** Shell cell `(x, y, z)` is the window at `origin + (x − 1, y − 1, z − 1)`, or 0 outside the window. */
  lemma ShellHoldsWindow(window: seq<byte>, origin: (int, int, int), x: int, y: int, z: int)
    requires |window| == VoxelWindow.WINDOW_BYTES && 0 <= x < 32 && 0 <= y < 32 && 0 <= z < 32
    ensures 0 <= ShellIndex(x, y, z) < SHELL_BYTES
    ensures var gx, gy, gz := origin.0 + x - 1, origin.1 + y - 1, origin.2 + z - 1;
      Shell(window, origin)[ShellIndex(x, y, z)]
        == if 0 <= gx < 360 && 0 <= gy < 360 && 0 <= gz < 360 then window[VoxelWindow.WindowIndex(gx, gy, gz)] else 0
  {
    ShellCellOfIndex(x, y, z);
  }

  /** `shellData.every(voxel => voxel === 0)`. */
  predicate AllZero(s: seq<byte>)
  {
    forall i :: 0 <= i < |s| ==> s[i] == 0
  }

  // ---------------------------------------------------------------- tasks and workers

  /**
   * The key `onWorkerMessage` builds from a reply: a `meshGenerated` reply
   * carries its chunk's coordinates; an `error` reply carries none, so
   * every part of the key renders as `undefined`.
   */
  function ReplyKey(reply: Option<ChunkRef>): string
  {
    if reply.Some? then ChunkKey(reply.value)
    else
      var u := "undefined";
      u + "_" + u + "_" + u + "_" + u + "_" + u + "_" + u
  }

  /** The key of an `error` reply is no chunk's key, so a chunk whose mesh failed is never marked loaded. */
  lemma ErrorReplyMarksNoChunk(c: ChunkRef)
    ensures ChunkKey(c) != ReplyKey(None)
  {
    var s := IntToString(c.regionX);
    KeyNested(c);
    assert ChunkKey(c)[0] == s[0];
    assert ReplyKey(None)[0] == "undefined"[0] == 'u';
    if c.regionX >= 0 {
      assert s == NatToString(c.regionX);
    }
  }

  /** A `generateMeshFromChunk` task: the shell bytes and the chunk they belong to. */
  datatype Task = Task(chunkData: seq<byte>, chunk: ChunkRef)

  /** `workerPool.find(w => w.isFree)`: the first free worker, if any. */
  function FirstFree(isFree: seq<bool>): (r: Option<nat>)
    ensures r.Some? ==> r.value < |isFree| && isFree[r.value] && forall j :: 0 <= j < r.value ==> !isFree[j]
    ensures r.None? ==> forall j :: 0 <= j < |isFree| ==> !isFree[j]
  {
    if isFree == [] then None
    else if isFree[0] then Some(0)
    else
      var r := FirstFree(isFree[1..]);
      assert forall j :: 1 <= j < |isFree| ==> isFree[j] == isFree[1..][j - 1];
      if r.Some? then Some(r.value + 1) else None
  }

  /** A `ChunkManager`: its loaded chunks, waiting tasks, worker pool and the data it reads. */
  class ChunkManager {
    /** `loadedChunks`. */
    var loadedChunks: set<string>
    /** `taskQueue`. */
    var taskQueue: seq<Task>
    /** `worker.isFree` of each worker of `workerPool`. */
    var isFree: seq<bool>
    /** The tasks posted so far, each with the index of the worker it went to. */
    var posted: seq<(nat, Task)>
    /** `worldLoader`. */
    var worldLoader: WorldLoader.Loader
    /** `voxelWindow`. */
    var voxelWindow: array<byte>
    /** `windowOrigin`. */
    var windowOrigin: (int, int, int)

    /** The pool has four workers, the loader is consistent and the window has its full size. */
    predicate Valid()
      reads this, worldLoader
    {
      && |isFree| == POOL_SIZE && worldLoader.Valid()
      && voxelWindow.Length == VoxelWindow.WINDOW_BYTES
    }

    /** Tasks wait in the queue only while every worker is busy. */
    predicate QueueWaitsForWorkers()
      reads this
    {
      |taskQueue| > 0 ==> FirstFree(isFree).None?
    }

    /**
     * A manager whose window has been filled once: every worker free,
     * nothing loaded, queued or posted.
     */
    constructor (loader: WorldLoader.Loader, window: array<byte>, origin: (int, int, int))
      requires loader.Valid() && window.Length == VoxelWindow.WINDOW_BYTES
      ensures Valid() && QueueWaitsForWorkers()
      ensures loadedChunks == {} && taskQueue == [] && posted == [] && isFree == [true, true, true, true]
      ensures worldLoader == loader && voxelWindow == window && windowOrigin == origin
    {
      loadedChunks := {};
      taskQueue := [];
      isFree := [true, true, true, true];
      posted := [];
      worldLoader := loader;
      voxelWindow := window;
      windowOrigin := origin;
    }

    /** `submitTaskToWorker(worker, task)`: the worker is marked busy and the task is posted to it. */
    method SubmitTaskToWorker(worker: nat, task: Task)
      requires Valid() && worker < |isFree|
      modifies this
      ensures Valid()
      ensures isFree == old(isFree)[worker := false] && posted == old(posted) + [(worker, task)]
      ensures loadedChunks == old(loadedChunks) && taskQueue == old(taskQueue)
      ensures worldLoader == old(worldLoader) && voxelWindow == old(voxelWindow) && windowOrigin == old(windowOrigin)
    {
      isFree := isFree[worker := false];
      posted := posted + [(worker, task)];
    }

    /** `processQueue()`: the head of the queue goes to the first free worker, if there is a task and a free worker. */
    method ProcessQueue()
      requires Valid()
      modifies this
      ensures Valid()
      ensures old(|taskQueue| > 0 && FirstFree(isFree).Some?) ==>
        var w := old(FirstFree(isFree)).value;
        && taskQueue == old(taskQueue[1..]) && isFree == old(isFree)[w := false]
        && posted == old(posted) + [(w, old(taskQueue[0]))]
      ensures !old(|taskQueue| > 0 && FirstFree(isFree).Some?) ==>
        taskQueue == old(taskQueue) && isFree == old(isFree) && posted == old(posted)
      ensures loadedChunks == old(loadedChunks)
      ensures worldLoader == old(worldLoader) && voxelWindow == old(voxelWindow) && windowOrigin == old(windowOrigin)
    {
      if |taskQueue| > 0 {
        var freeWorker := FirstFree(isFree);
        if freeWorker.Some? {
          var task := taskQueue[0];
          taskQueue := taskQueue[1..];
          SubmitTaskToWorker(freeWorker.value, task);
        }
      }
    }

    /**
     * The bookkeeping of `onWorkerMessage`: the answering worker is free
     * again, the key built from the reply is marked loaded (whatever the
     * reply's type), and the queue is served.
     */
    method OnWorkerMessage(worker: nat, reply: Option<ChunkRef>)
      requires Valid() && QueueWaitsForWorkers() && worker < |isFree|
      modifies this
      ensures Valid() && QueueWaitsForWorkers()
      ensures loadedChunks == old(loadedChunks) + {ReplyKey(reply)}
      ensures old(|taskQueue|) > 0 ==>
        && taskQueue == old(taskQueue[1..]) && isFree == old(isFree)
        && posted == old(posted) + [(worker, old(taskQueue[0]))]
      ensures old(|taskQueue|) == 0 ==>
        taskQueue == [] && isFree == old(isFree)[worker := true] && posted == old(posted)
      ensures worldLoader == old(worldLoader) && voxelWindow == old(voxelWindow) && windowOrigin == old(windowOrigin)
    {
      ghost var busy := isFree;
      assert |taskQueue| > 0 ==> forall j :: 0 <= j < |busy| ==> !busy[j];
      isFree := isFree[worker := true];
      loadedChunks := loadedChunks + {ReplyKey(reply)};
      if |taskQueue| > 0 {
        ghost var first := FirstFree(isFree);
        assert isFree[worker];
        assert first == Some(worker);
        assert isFree[worker := false] == busy;
      }
      ProcessQueue();
    }

    /** `getChunkDataWithShell`: a fresh 32³ array holding the chunk's core and a one-voxel border read from the window. */
    method GetChunkDataWithShell(chunk: ChunkRef) returns (shellData: array<byte>)
      requires Valid()
      ensures fresh(shellData)
      ensures shellData[..] == Shell(voxelWindow[..], ShellOrigin(windowOrigin, chunk))
    {
      var origin := ShellOrigin(windowOrigin, chunk);
      shellData := new byte[SHELL_BYTES](_ => 0);
      ghost var window := voxelWindow[..];
      ShellEnds(window, origin);
      var x := 0;
      while x < SHELL_SIZE
        invariant 0 <= x <= SHELL_SIZE
        invariant shellData[..] == ShellAfter(window, origin, 1024 * x)
      {
        var y := 0;
        while y < SHELL_SIZE
          invariant 0 <= y <= SHELL_SIZE
          invariant shellData[..] == ShellAfter(window, origin, 1024 * x + 32 * y)
        {
          FillShellColumn(voxelWindow, shellData, origin, x, y, 1024 * x + 32 * y);
          y := y + 1;
        }
        x := x + 1;
      }
    }

    /** The innermost loop of `getChunkDataWithShell`: the 32 cells of one `z` column. */
    static method FillShellColumn(voxelWindow: array<byte>, shellData: array<byte>, origin: (int, int, int), x: int, y: int, ghost p0: int)
      requires voxelWindow.Length == VoxelWindow.WINDOW_BYTES && shellData.Length == SHELL_BYTES && shellData != voxelWindow
      requires 0 <= x < 32 && 0 <= y < 32 && p0 == ShellOrder(x, y, 0)
      requires shellData[..] == ShellAfter(voxelWindow[..], origin, p0)
      modifies shellData
      ensures shellData[..] == ShellAfter(voxelWindow[..], origin, p0 + 32)
    {
      ghost var window := voxelWindow[..];
      var z := 0;
      ghost var q := p0;
      while z < SHELL_SIZE
        invariant 0 <= z <= SHELL_SIZE && voxelWindow[..] == window
        invariant q == p0 + z && shellData[..] == ShellAfter(window, origin, q)
      {
        var globalX, globalY, globalZ := origin.0 + x - 1, origin.1 + y - 1, origin.2 + z - 1;
        assert ShellOrder(x, y, z) == q;
        ShellStep(window, origin, x, y, z);
        if 0 <= globalX < 360 && 0 <= globalY < 360 && 0 <= globalZ < 360 {
          VoxelWindow.CellOfIndex(globalX, globalY, globalZ);
          var windowIndex := globalX + globalY * 360 + globalZ * 360 * 360;
          var shellIndex := x + y * 32 + z * 32 * 32;
          assert shellIndex == ShellIndex(x, y, z) && windowIndex == VoxelWindow.WindowIndex(globalX, globalY, globalZ);
          assert voxelWindow[windowIndex] == ShellCell(window, origin, x, y, z);
          shellData[shellIndex] := voxelWindow[windowIndex];
        } else {
          assert ShellCell(window, origin, x, y, z) == 0;
        }
        z := z + 1;
        q := q + 1;
      }
    }

    /**
     * `loadChunk(...)`: an already loaded chunk is left alone; a chunk whose
     * shell is all air is marked loaded at once; any other chunk becomes a
     * task for the first free worker, or waits in the queue. A chunk handed
     * to a worker is not marked loaded until the worker answers.
     */
    method LoadChunk(chunk: ChunkRef)
      requires Valid() && QueueWaitsForWorkers()
      modifies this
      ensures Valid() && QueueWaitsForWorkers()
      ensures ChunkKey(chunk) in old(loadedChunks) ==>
        loadedChunks == old(loadedChunks) && taskQueue == old(taskQueue) && isFree == old(isFree) && posted == old(posted)
      ensures ChunkKey(chunk) !in old(loadedChunks) ==>
        var shell := Shell(old(voxelWindow[..]), ShellOrigin(old(windowOrigin), chunk));
        var free := FirstFree(old(isFree));
        if AllZero(shell) then
          loadedChunks == old(loadedChunks) + {ChunkKey(chunk)}
          && taskQueue == old(taskQueue) && isFree == old(isFree) && posted == old(posted)
        else
          && loadedChunks == old(loadedChunks)
          && (free.Some? ==>
                isFree == old(isFree)[free.value := false] && posted == old(posted) + [(free.value, Task(shell, chunk))]
                && taskQueue == old(taskQueue))
          && (free.None? ==> taskQueue == old(taskQueue) + [Task(shell, chunk)] && isFree == old(isFree) && posted == old(posted))
      ensures worldLoader == old(worldLoader) && voxelWindow == old(voxelWindow) && windowOrigin == old(windowOrigin)
    {
      var chunkKey := ChunkKey(chunk);
      if chunkKey in loadedChunks {
        return;
      }
      var shellData := GetChunkDataWithShell(chunk);
      if AllZero(shellData[..]) {
        loadedChunks := loadedChunks + {chunkKey};
        return;
      }
      var freeWorker := FirstFree(isFree);
      var task := Task(shellData[..], chunk);
      if freeWorker.Some? {
        SubmitTaskToWorker(freeWorker.value, task);
      } else {
        taskQueue := taskQueue + [task];
      }
    }

    /**
     * `findChunksToLoad(playerPosition, radius)`: every chunk within
     * `radius` chunks of the player's on each axis whose key is not in
     * `loadedChunks`, in the loops' order.
     */
    method FindChunksToLoad(px: real, py: real, pz: real, radius: int) returns (chunksToLoad: seq<ChunkRef>)
      ensures var center := ChunkRef(CurrentRegion(px), CurrentRegion(py), CurrentRegion(pz),
                                     CurrentChunk(px), CurrentChunk(py), CurrentChunk(pz));
        chunksToLoad == Unloaded(loadedChunks, Neighbourhood(center, radius))
    {
      var center := ChunkRef(CurrentRegion(px), CurrentRegion(py), CurrentRegion(pz),
                             CurrentChunk(px), CurrentChunk(py), CurrentChunk(pz));
      chunksToLoad := CollectNeighbourhood(loadedChunks, center, radius);
    }

    /** The `dx` loop of `findChunksToLoad`. */
    static method CollectNeighbourhood(loaded: set<string>, center: ChunkRef, radius: int) returns (chunksToLoad: seq<ChunkRef>)
      ensures chunksToLoad == Unloaded(loaded, Neighbourhood(center, radius))
    {
      ghost var slabs := HoodRunsExist(center, radius);
      chunksToLoad := [];
      var dx := -radius;
      while dx <= radius
        invariant IsHoodRuns(center, radius, slabs)
        invariant 0 <= dx + radius <= |slabs|
        invariant chunksToLoad == Unloaded(loaded, FlattenSlabs(slabs[..dx + radius]))
        decreases radius - dx + 1
      {
        var slab := CollectSlab(loaded, center, radius, dx, slabs[dx + radius]);
        FlattenSlabsStep(loaded, slabs, dx + radius, chunksToLoad, slab);
        chunksToLoad := chunksToLoad + slab;
        dx := dx + 1;
      }
      assert slabs[..dx + radius] == slabs;
      HoodRunsFlatten(center, radius, slabs);
    }

    /** The `dy` loop of `findChunksToLoad` for one `dx`, over the columns `cols` of that slab. */
    static method CollectSlab(loaded: set<string>, center: ChunkRef, radius: int, dx: int, ghost cols: seq<seq<ChunkRef>>)
      returns (slab: seq<ChunkRef>)
      requires IsSlabRuns(center, radius, dx, cols)
      ensures slab == Unloaded(loaded, Flatten(cols))
    {
      slab := [];
      var dy := -radius;
      while dy <= radius
        invariant 0 <= dy + radius <= |cols|
        invariant slab == Unloaded(loaded, Flatten(cols[..dy + radius]))
        decreases radius - dy + 1
      {
        var column := CollectColumn(loaded, center, radius, dx, dy, cols[dy + radius]);
        FlattenStep(loaded, cols, dy + radius, slab, column);
        slab := slab + column;
        dy := dy + 1;
      }
      assert cols[..dy + radius] == cols;
    }

    /** The `dz` loop of `findChunksToLoad` for one `(dx, dy)`, over the column `run` it visits. */
    static method CollectColumn(loaded: set<string>, center: ChunkRef, radius: int, dx: int, dy: int, ghost run: seq<ChunkRef>)
      returns (column: seq<ChunkRef>)
      requires IsColumnRun(center, radius, dx, dy, run)
      ensures column == Unloaded(loaded, run)
    {
      column := [];
      var dz := -radius;
      while dz <= radius
        invariant 0 <= dz + radius <= |run|
        invariant column == Unloaded(loaded, run[..dz + radius])
        decreases radius - dz + 1
      {
        var neighbour := NeighbourOf(center, dx, dy, dz, radius, run);
        var key := ChunkKey(neighbour);
        UnloadedSnoc(loaded, run, dz + radius, neighbour);
        if key !in loaded {
          column := column + [neighbour];
        }
        dz := dz + 1;
      }
      assert run[..dz + radius] == run;
    }

    /**
     * The body of the `dz` loop up to the key: the chunk at offset
     * `(dx, dy, dz)`, its region and grid place worked out with
     * `Math.floor(w / GRID)` and `(w % GRID + GRID) % GRID`.
     */
    static method NeighbourOf(center: ChunkRef, dx: int, dy: int, dz: int, ghost radius: int, ghost run: seq<ChunkRef>) returns (neighbour: ChunkRef)
      requires IsColumnRun(center, radius, dx, dy, run) && -radius <= dz <= radius
      ensures neighbour == run[dz + radius]
    {
      var wx, wy, wz := center.chunkX + dx, center.chunkY + dy, center.chunkZ + dz;
      var adjRegionX, adjRegionY, adjRegionZ := center.regionX + wx / 4, center.regionY + wy / 4, center.regionZ + wz / 4;
      var adjChunkX, adjChunkY, adjChunkZ := JsRem(JsRem(wx, 4) + 4, 4), JsRem(JsRem(wy, 4) + 4, 4), JsRem(JsRem(wz, 4) + 4, 4);
      neighbour := ChunkRef(adjRegionX, adjRegionY, adjRegionZ, adjChunkX, adjChunkY, adjChunkZ);
      assert neighbour == Neighbour(center, dx, dy, dz);
    }

    /**
     * `unloadRegionIfAllChunksUnloaded(regionKey)` as written: the region's
     * data and its key are dropped from the loader unless some loaded chunk
     * key starts with the region key (with no separator after it).
     */
    method UnloadRegionIfAllChunksUnloaded(regionKey: string)
      requires Valid()
      modifies worldLoader
      ensures Valid()
      ensures SomeKeyStartsWith(loadedChunks, regionKey) ==>
        worldLoader.regionsData == old(worldLoader.regionsData) && worldLoader.loadedRegions == old(worldLoader.loadedRegions)
      ensures !SomeKeyStartsWith(loadedChunks, regionKey) ==>
        && worldLoader.regionsData == JsMap.Delete(old(worldLoader.regionsData), regionKey)
        && worldLoader.loadedRegions == JsSet.Remove(old(worldLoader.loadedRegions), regionKey)
    {
      var hasLoadedChunks := SomeKeyStartsWith(loadedChunks, regionKey);
      if !hasLoadedChunks {
        JsMap.DeleteKeys(worldLoader.regionsData, regionKey);
        worldLoader.regionsData := JsMap.Delete(worldLoader.regionsData, regionKey);
        worldLoader.loadedRegions := JsSet.Remove(worldLoader.loadedRegions, regionKey);
      }
    }

    /**
     * `unloadRegionIfAllChunksUnloaded` with the separator after the region
     * key: the region at `(rx, ry, rz)` is dropped exactly when no loaded
     * key belongs to one of its chunks (see `SeparatorTestFindsRegionChunks`).
     */
    method UnloadRegionWithSeparator(rx: int, ry: int, rz: int)
      requires Valid()
      modifies worldLoader
      ensures Valid()
      ensures SomeKeyStartsWith(loadedChunks, WorldLoader.RegionKey(rx, ry, rz) + "_") ==>
        worldLoader.regionsData == old(worldLoader.regionsData) && worldLoader.loadedRegions == old(worldLoader.loadedRegions)
      ensures !SomeKeyStartsWith(loadedChunks, WorldLoader.RegionKey(rx, ry, rz) + "_") ==>
        && worldLoader.regionsData == JsMap.Delete(old(worldLoader.regionsData), WorldLoader.RegionKey(rx, ry, rz))
        && worldLoader.loadedRegions == JsSet.Remove(old(worldLoader.loadedRegions), WorldLoader.RegionKey(rx, ry, rz))
    {
      var regionKey := WorldLoader.RegionKey(rx, ry, rz);
      var hasLoadedChunks := SomeKeyStartsWith(loadedChunks, regionKey + "_");
      if !hasLoadedChunks {
        JsMap.DeleteKeys(worldLoader.regionsData, regionKey);
        worldLoader.regionsData := JsMap.Delete(worldLoader.regionsData, regionKey);
        worldLoader.loadedRegions := JsSet.Remove(worldLoader.loadedRegions, regionKey);
      }
    }
  }

  /** A shell copied from a window that holds only air is all air, so its chunk is marked loaded with no task. */
  lemma AirWindowGivesEmptyShell(window: seq<byte>, origin: (int, int, int))
    requires |window| == VoxelWindow.WINDOW_BYTES && AllZero(window)
    ensures AllZero(Shell(window, origin))
  {
  }
}
