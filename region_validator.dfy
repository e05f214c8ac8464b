/**
 * `verifyGeneratedRegion(buffer, fileName)` (validate_region.js): loads a
 * "VOXL" region file, takes the histogram of every chunk, and reports
 * success when the region holds voxels and some of them are dirt, grass or
 * rock (types 1, 3 and 4). Any error while loading becomes a failed report;
 * the function never throws.
 */
module RegionValidator {
  import opened JsNumbers
  import opened Wrappers
  import DenseChunk
  import DenseRegion

  /** What the report's message states besides the verdict: the voxel total, or the error caught. */
  datatype Detail = Counted(totalVoxels: nat) | Caught(error: DenseRegion.RegionError)

  /** The object `verifyGeneratedRegion` returns: `success` and what its message reports. */
  datatype Report = Report(success: bool, detail: Detail)

  // ---------------------------------------------------------------- specification

  /** The histogram of every chunk of a decoded region, in slot order. */
  function Histograms(cores: seq<seq<byte>>): (hs: seq<seq<nat>>)
    ensures |hs| == |cores| && forall k :: 0 <= k < |hs| ==> |hs[k]| == 256
  {
    seq(|cores|, k requires 0 <= k < |cores| => DenseChunk.Hist(DenseChunk.FromCore(cores[k])))
  }

  /** `totalVoxels`: the counts of every histogram added up. */
  function TotalVoxels(hs: seq<seq<nat>>): nat
  {
    if hs == [] then 0 else TotalVoxels(hs[..|hs| - 1]) + DenseChunk.Sum(hs[|hs| - 1])
  }

  /** The counts of dirt, grass and rock in one histogram. */
  function Solid(h: seq<nat>): nat
    requires |h| == 256
  {
    h[1] + h[3] + h[4]
  }

  /** `nonAirVoxelCount`: the `reduce` adding `hist[1] + hist[3] + hist[4]` over the histograms. */
  function NonAirCount(hs: seq<seq<nat>>): nat
    requires forall k :: 0 <= k < |hs| ==> |hs[k]| == 256
  {
    if hs == [] then 0 else NonAirCount(hs[..|hs| - 1]) + Solid(hs[|hs| - 1])
  }

  /** The report for a buffer: loading errors fail; otherwise success needs voxels and some of them solid. */
  function Verify(buffer: seq<byte>): Report
  {
    var decoded := DenseRegion.Decode(buffer);
    if decoded.Err? then Report(false, Caught(decoded.error))
    else
      var hs := Histograms(decoded.value);
      var total := TotalVoxels(hs);
      Report(total > 0 && NonAirCount(hs) > 0, Counted(total))
  }

  // ---------------------------------------------------------------- properties

  /** Every chunk counts all of its voxels, so the total is the number of chunks times 27000. */
  lemma {:induction false} TotalIsEveryVoxel(cores: seq<seq<byte>>)
    ensures TotalVoxels(Histograms(cores)) == |cores| * DenseChunk.VOXELS
  {
    if cores != [] {
      var front := cores[..|cores| - 1];
      assert Histograms(cores)[..|cores| - 1] == Histograms(front);
      TotalIsEveryVoxel(front);
      DenseChunk.HistSum(DenseChunk.FromCore(cores[|cores| - 1]));
    }
  }

  /** Some voxel of the chunk is dirt, grass or rock (type 1, 3 or 4). */
  ghost predicate ChunkSolid(s: seq<byte>)
  {
    exists i :: 0 <= i < |s| && s[i] in {1, 3, 4}
  }

  /** A chunk's histogram counts solid voxels exactly when it holds one. */
  lemma SolidChunk(s: seq<byte>)
    ensures Solid(DenseChunk.Hist(s)) > 0 <==> ChunkSolid(s)
  {
    var h := DenseChunk.Hist(s);
    if Solid(h) > 0 {
      var v: byte := if h[1] > 0 then 1 else if h[3] > 0 then 3 else 4;
      assert v in multiset(s);
      var i :| 0 <= i < |s| && s[i] == v;
    }
    if ChunkSolid(s) {
      var i :| 0 <= i < |s| && s[i] in {1, 3, 4};
      assert s[i] in multiset(s);
    }
  }

  /** Some chunk of the region holds a solid voxel. */
  ghost predicate HasSolid(cores: seq<seq<byte>>)
  {
    exists k :: 0 <= k < |cores| && ChunkSolid(DenseChunk.FromCore(cores[k]))
  }

  /** Over any chunks: the solid count of their histograms is positive exactly when one of them holds a solid voxel. */
  lemma {:induction false} NonAirOfChunks(hs: seq<seq<nat>>, chunks: seq<seq<byte>>)
    requires |hs| == |chunks| && forall k :: 0 <= k < |hs| ==> |hs[k]| == 256 && hs[k] == DenseChunk.Hist(chunks[k])
    ensures NonAirCount(hs) > 0 <==> exists k :: 0 <= k < |chunks| && ChunkSolid(chunks[k])
  {
    if hs != [] {
      var n := |hs| - 1;
      NonAirOfChunks(hs[..n], chunks[..n]);
      SolidChunk(chunks[n]);
      if exists k :: 0 <= k < n && ChunkSolid(chunks[..n][k]) {
        var k :| 0 <= k < n && ChunkSolid(chunks[..n][k]);
        assert ChunkSolid(chunks[k]);
      }
      if exists k :: 0 <= k < |chunks| && ChunkSolid(chunks[k]) {
        var k :| 0 <= k < |chunks| && ChunkSolid(chunks[k]);
        if k < n {
          assert ChunkSolid(chunks[..n][k]);
        }
      }
    }
  }

  /** The solid count is positive exactly when some chunk of the region holds a solid voxel. */
  lemma NonAirMeansSolid(cores: seq<seq<byte>>)
    ensures NonAirCount(Histograms(cores)) > 0 <==> HasSolid(cores)
  {
    var chunks := seq(|cores|, k requires 0 <= k < |cores| => DenseChunk.FromCore(cores[k]));
    NonAirOfChunks(Histograms(cores), chunks);
    if HasSolid(cores) {
      var k :| 0 <= k < |cores| && ChunkSolid(DenseChunk.FromCore(cores[k]));
      assert ChunkSolid(chunks[k]);
    }
  }

  /**
   * The verdict: success exactly when the file loads and one of its chunks
   * holds dirt, grass or rock; cloud (type 2) and the other types do not
   * count. A file that loads always reports all 64 · 27000 voxels, and one
   * that does not reports the loading error.
   */
  lemma VerifyVerdict(buffer: seq<byte>)
    ensures var decoded := DenseRegion.Decode(buffer);
      && (Verify(buffer).success <==> decoded.Ok? && HasSolid(decoded.value))
      && (decoded.Ok? ==> Verify(buffer).detail == Counted(DenseRegion.TOTAL * DenseChunk.VOXELS))
      && (decoded.Err? ==> Verify(buffer).detail == Caught(decoded.error))
  {
    var decoded := DenseRegion.Decode(buffer);
    if decoded.Ok? {
      TotalIsEveryVoxel(decoded.value);
      NonAirMeansSolid(decoded.value);
    }
  }

  // ---------------------------------------------------------------- the function

  /** `histogram.reduce((sum, count) => sum + count, 0)`. */
  method SumCounts(histogram: seq<nat>) returns (sum: nat)
    ensures sum == DenseChunk.Sum(histogram)
  {
    sum := 0;
    var i := 0;
    while i < |histogram|
      invariant 0 <= i <= |histogram| && sum == DenseChunk.Sum(histogram[..i])
    {
      assert histogram[..i + 1][..i] == histogram[..i];
      sum := sum + histogram[i];
      i := i + 1;
    }
    assert histogram[..i] == histogram;
  }

  /** `histograms.reduce((sum, hist) => sum + hist[1] + hist[3] + hist[4], 0)`. */
  method CountNonAir(histograms: seq<seq<nat>>) returns (sum: nat)
    requires forall k :: 0 <= k < |histograms| ==> |histograms[k]| == 256
    ensures sum == NonAirCount(histograms)
  {
    sum := 0;
    var i := 0;
    while i < |histograms|
      invariant 0 <= i <= |histograms| && sum == NonAirCount(histograms[..i])
    {
      assert histograms[..i + 1][..i] == histograms[..i];
      var hist := histograms[i];
      sum := sum + hist[1] + hist[3] + hist[4];
      i := i + 1;
    }
    assert histograms[..i] == histograms;
  }

  /**
   * The `forEachChunk` callback over every slot: each present chunk's
   * histogram is pushed and its count added to `totalVoxels`.
   */
  method CollectHistograms(chunks: seq<Option<DenseChunk.Chunk>>, ghost cores: seq<seq<byte>>)
      returns (histograms: seq<seq<nat>>, totalVoxels: nat)
    requires |chunks| == |cores|
    requires forall k :: 0 <= k < |chunks| ==>
      chunks[k].Some? && chunks[k].value.voxels[..] == DenseChunk.FromCore(cores[k])
    ensures histograms == Histograms(cores) && totalVoxels == TotalVoxels(histograms)
  {
    totalVoxels := 0;
    histograms := [];
    var i := 0;
    while i < |chunks|
      invariant 0 <= i <= |chunks| && histograms == Histograms(cores)[..i]
      invariant totalVoxels == TotalVoxels(histograms)
    {
      var chunk := chunks[i];
      if chunk.Some? {
        var c := chunk.value;
        var histogram := c.Histogram();
        assert Histograms(cores)[..i + 1] == histograms + [histogram];
        histograms := histograms + [histogram];
        var chunkVoxels := SumCounts(histogram);
        totalVoxels := totalVoxels + chunkVoxels;
      }
      i := i + 1;
    }
  }

  /**
   * `verifyGeneratedRegion(buffer, fileName)`: `Region.fromBuffer`, the
   * histograms of its chunks, then the verdict; an error thrown while
   * loading is caught and reported.
   */
  method VerifyGeneratedRegion(buffer: seq<byte>) returns (r: Report)
    ensures r == Verify(buffer)
  {
    var loaded := DenseRegion.Region.FromBuffer(buffer, 0, 0, 0);
    if loaded.Err? {
      return Report(false, Caught(loaded.error));
    }
    var region := loaded.value;
    var calls := region.ForEachChunk();
    var chunks := seq(|calls|, k requires 0 <= k < |calls| => calls[k].0);
    var histograms, totalVoxels := CollectHistograms(chunks, DenseRegion.Decode(buffer).value);
    var nonAirVoxelCount := CountNonAir(histograms);
    if totalVoxels > 0 && nonAirVoxelCount > 0 {
      r := Report(true, Counted(totalVoxels));
    } else {
      r := Report(false, Counted(totalVoxels));
    }
  }
}
