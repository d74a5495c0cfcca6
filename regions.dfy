/** `make_region_lists`: splitting the windows of one chromosome into those
    whose mean mapping quality and depth look reliable and the rest, and the
    per-chromosome loop of the bam analysis that writes both sets as BED
    intervals.  Square roots are not computed: the caller supplies
    `sqrtMean`, constrained to be the non-negative square root of the mean
    depth. */
module Regions {
  import opened Results
  import opened Seqs
  import opened Intervals

  /** One row of the windows data frame. */
  datatype Window = Window(chrom: string, start: nat, stop: nat, depth: real, mapq: real)

  function SumDepth(ws: seq<Window>): real
  {
    if ws == [] then 0.0 else SumDepth(ws[..|ws| - 1]) + ws[|ws| - 1].depth
  }

  /** The mean of the depth column (no rows: no window can pass anyway). */
  function MeanDepth(ws: seq<Window>): real
  {
    if ws == [] then 0.0 else SumDepth(ws) / (|ws| as real)
  }

  /** depthMin and depthMax: mean -/+ threshold * sqrt(mean). */
  datatype DepthBounds = DepthBounds(min: real, max: real)

  function Bounds(mean: real, sqrtMean: real, depthThresh: real): DepthBounds
  {
    DepthBounds(mean - depthThresh * sqrtMean, mean + depthThresh * sqrtMean)
  }

  /** The `good` mask: mapq at least the cutoff, depth strictly inside the bounds. */
  predicate Passes(w: Window, mapqCutoff: real, b: DepthBounds)
  {
    w.mapq >= mapqCutoff && b.min < w.depth && w.depth < b.max
  }

  /** `make_region_lists(df, mapqCutoff, depth_thresh)`: the rows that pass
      and the rows that fail.  Every window lands in exactly one of the two,
      each keeps the input order, the first holds only passing windows and
      the second only failing ones. */
  function MakeRegionLists(ws: seq<Window>, mapqCutoff: real, depthThresh: real, sqrtMean: real)
    : (r: (seq<Window>, seq<Window>))
    ensures Interleaving(ws, r.0, r.1)
    ensures forall i :: 0 <= i < |r.0| ==>
      Passes(r.0[i], mapqCutoff, Bounds(MeanDepth(ws), sqrtMean, depthThresh))
    ensures forall i :: 0 <= i < |r.1| ==>
      !Passes(r.1[i], mapqCutoff, Bounds(MeanDepth(ws), sqrtMean, depthThresh))
  {
    Partition(PassTest(mapqCutoff, Bounds(MeanDepth(ws), sqrtMean, depthThresh)), ws)
  }

  /** The mask as a test on one window. */
  function PassTest(mapqCutoff: real, b: DepthBounds): Window -> bool
  {
    w => Passes(w, mapqCutoff, b)
  }

  /** Every window is in exactly one of the two lists: the lengths add up
      to the number of windows and, counted with repetition, the two lists
      hold exactly the input windows. */
  lemma RegionListsPartition(ws: seq<Window>, mapqCutoff: real, depthThresh: real, sqrtMean: real)
    ensures var r := MakeRegionLists(ws, mapqCutoff, depthThresh, sqrtMean);
      |r.0| + |r.1| == |ws| && multiset(r.0) + multiset(r.1) == multiset(ws)
  {
    var r := MakeRegionLists(ws, mapqCutoff, depthThresh, sqrtMean);
    InterleavingCounts(ws, r.0, r.1);
  }

  lemma {:induction false} SumOfZeroDepths(ws: seq<Window>)
    requires forall i :: 0 <= i < |ws| ==> ws[i].depth == 0.0
    ensures SumDepth(ws) == 0.0
  {
    if ws != [] {
      SumOfZeroDepths(ws[..|ws| - 1]);
    }
  }

  lemma {:induction false} SumOfEqualDepths(ws: seq<Window>, d: real)
    requires forall i :: 0 <= i < |ws| ==> ws[i].depth == d
    ensures SumDepth(ws) == (|ws| as real) * d
  {
    if ws != [] {
      SumOfEqualDepths(ws[..|ws| - 1], d);
    }
  }

  /** `s` is `np.sqrt(m)`: non-negative, squaring back to `m`, and zero
      exactly when `m` is zero (a consequence of the other two that the
      solver's linear arithmetic does not derive by itself). */
  predicate IsSqrt(s: real, m: real)
  {
    s >= 0.0 && s * s == m && (s == 0.0 <==> m == 0.0)
  }

  /** A chromosome without coverage: the mean is 0, both bounds are 0, and
      every window fails. */
  lemma ZeroCoverageAllFail(ws: seq<Window>, mapqCutoff: real, depthThresh: real, sqrtMean: real)
    requires IsSqrt(sqrtMean, MeanDepth(ws))
    requires forall i :: 0 <= i < |ws| ==> ws[i].depth == 0.0
    ensures Bounds(MeanDepth(ws), sqrtMean, depthThresh) == DepthBounds(0.0, 0.0)
    ensures MakeRegionLists(ws, mapqCutoff, depthThresh, sqrtMean) == ([], ws)
  {
    SumOfZeroDepths(ws);
    assert MeanDepth(ws) == 0.0;
    PartitionNone(PassTest(mapqCutoff, DepthBounds(0.0, 0.0)), ws);
  }

  /** Uniform coverage with good mapping quality and a positive threshold:
      every window passes (the mean equals the common depth and the bounds
      are strictly around it). */
  lemma UniformCoverageAllPass(ws: seq<Window>, d: real, mapqCutoff: real, depthThresh: real, sqrtMean: real)
    requires IsSqrt(sqrtMean, MeanDepth(ws))
    requires d > 0.0 && depthThresh > 0.0 && ws != []
    requires forall i :: 0 <= i < |ws| ==> ws[i].depth == d && ws[i].mapq >= mapqCutoff
    ensures MakeRegionLists(ws, mapqCutoff, depthThresh, sqrtMean) == (ws, [])
  {
    UniformBounds(ws, d, depthThresh, sqrtMean);
    PartitionAll(PassTest(mapqCutoff, Bounds(MeanDepth(ws), sqrtMean, depthThresh)), ws);
  }

  /** With every depth equal to `d > 0`, the bounds lie strictly around `d`. */
  lemma UniformBounds(ws: seq<Window>, d: real, depthThresh: real, sqrtMean: real)
    requires IsSqrt(sqrtMean, MeanDepth(ws))
    requires d > 0.0 && depthThresh > 0.0 && ws != []
    requires forall i :: 0 <= i < |ws| ==> ws[i].depth == d
    ensures Bounds(MeanDepth(ws), sqrtMean, depthThresh).min < d < Bounds(MeanDepth(ws), sqrtMean, depthThresh).max
  {
    SumOfEqualDepths(ws, d);
    assert MeanDepth(ws) == d;
    assert depthThresh * sqrtMean > 0.0;
  }

  // ---------------------------------------------------------------------
  // The per-chromosome loop of the bam analysis

  /** The (chrom, start, stop) columns of a window. */
  function ToInterval(w: Window): Interval
  {
    Interval(w.chrom, w.start, w.stop)
  }

  function IntervalsOf(ws: seq<Window>): (r: seq<Interval>)
    ensures |r| == |ws| && forall i :: 0 <= i < |ws| ==> r[i] == ToInterval(ws[i])
  {
    if ws == [] then [] else [ToInterval(ws[0])] + IntervalsOf(ws[1..])
  }

  /** The `pass_df` and `fail_df` lists after the loop, as intervals:
      entry `i` holds the passing (failing) windows of chromosome `i`. */
  function Classified(windowsByChrom: seq<seq<Window>>, sqrtMeans: seq<real>, mapqCutoff: real, depthFilter: real)
    : (r: (seq<seq<Interval>>, seq<seq<Interval>>))
    requires |sqrtMeans| == |windowsByChrom|
    ensures |r.0| == |r.1| == |windowsByChrom|
  {
    (seq(|windowsByChrom|, i requires 0 <= i < |windowsByChrom| =>
       IntervalsOf(MakeRegionLists(windowsByChrom[i], mapqCutoff, depthFilter, sqrtMeans[i]).0)),
     seq(|windowsByChrom|, i requires 0 <= i < |windowsByChrom| =>
       IntervalsOf(MakeRegionLists(windowsByChrom[i], mapqCutoff, depthFilter, sqrtMeans[i]).1)))
  }

  /** Lines 230-243 of the pipeline: classify the windows of every chromosome,
      collect the passing and failing frames, and write each collection as
      one sorted, merged BED list.  The windows of each chromosome are what
      the scanner returned for it. */
  method AnalyzeChromosomes(windowsByChrom: seq<seq<Window>>, sqrtMeans: seq<real>, mapqCutoff: real, depthFilter: real)
    returns (high: Result<seq<Interval>, BedError>, low: Result<seq<Interval>, BedError>)
    requires |sqrtMeans| == |windowsByChrom|
    ensures high == OutputBed(Classified(windowsByChrom, sqrtMeans, mapqCutoff, depthFilter).0)
    ensures low == OutputBed(Classified(windowsByChrom, sqrtMeans, mapqCutoff, depthFilter).1)
  {
    var passDf: seq<seq<Interval>> := [];
    var failDf: seq<seq<Interval>> := [];
    ghost var classified := Classified(windowsByChrom, sqrtMeans, mapqCutoff, depthFilter);
    var i := 0;
    while i < |windowsByChrom|
      invariant 0 <= i <= |windowsByChrom|
      invariant passDf == classified.0[..i] && failDf == classified.1[..i]
    {
      var tup := MakeRegionLists(windowsByChrom[i], mapqCutoff, depthFilter, sqrtMeans[i]);
      passDf := passDf + [IntervalsOf(tup.0)];
      failDf := failDf + [IntervalsOf(tup.1)];
      assert classified.0[..i + 1] == classified.0[..i] + [classified.0[i]];
      assert classified.1[..i + 1] == classified.1[..i] + [classified.1[i]];
      i := i + 1;
    }
    assert classified.0[..i] == classified.0 && classified.1[..i] == classified.1;
    high := OutputBed(passDf);
    low := OutputBed(failDf);
  }

  predicate WindowCovers(windowsByChrom: seq<seq<Window>>, c: string, p: nat)
  {
    exists i, k :: 0 <= i < |windowsByChrom| && 0 <= k < |windowsByChrom[i]| &&
      InInterval(ToInterval(windowsByChrom[i][k]), c, p)
  }

  /** Windows drawn from `b` cover no more than `b` does. */
  lemma CoversDrawnFrom(a: seq<Window>, b: seq<Window>, c: string, p: nat)
    requires forall j :: 0 <= j < |a| ==> a[j] in b
    ensures Covers(IntervalsOf(a), c, p) ==> Covers(IntervalsOf(b), c, p)
  {
    if Covers(IntervalsOf(a), c, p) {
      var j :| 0 <= j < |a| && InInterval(IntervalsOf(a)[j], c, p);
      var k :| 0 <= k < |b| && b[k] == a[j];
      assert InInterval(IntervalsOf(b)[k], c, p);
    }
  }

  /** Two lists that interleave into `ws` together cover what `ws` covers. */
  lemma InterleavingCovers(ws: seq<Window>, a: seq<Window>, b: seq<Window>, c: string, p: nat)
    requires Interleaving(ws, a, b)
    ensures Covers(IntervalsOf(a), c, p) || Covers(IntervalsOf(b), c, p) <==> Covers(IntervalsOf(ws), c, p)
  {
    InterleavingMembers(ws, a, b);
    CoversDrawnFrom(a, ws, c, p);
    CoversDrawnFrom(b, ws, c, p);
    if Covers(IntervalsOf(ws), c, p) {
      var k :| 0 <= k < |ws| && InInterval(IntervalsOf(ws)[k], c, p);
      if ws[k] in a {
        var j :| 0 <= j < |a| && a[j] == ws[k];
        assert InInterval(IntervalsOf(a)[j], c, p);
      } else {
        var j :| 0 <= j < |b| && b[j] == ws[k];
        assert InInterval(IntervalsOf(b)[j], c, p);
      }
    }
  }

  /** On one chromosome, the passing and the failing windows together cover
      what all its windows cover. */
  lemma RegionListsCoverage(ws: seq<Window>, mapqCutoff: real, depthThresh: real, sqrtMean: real, c: string, p: nat)
    ensures var r := MakeRegionLists(ws, mapqCutoff, depthThresh, sqrtMean);
      Covers(IntervalsOf(r.0), c, p) || Covers(IntervalsOf(r.1), c, p) <==> Covers(IntervalsOf(ws), c, p)
  {
    var r := MakeRegionLists(ws, mapqCutoff, depthThresh, sqrtMean);
    InterleavingCovers(ws, r.0, r.1, c, p);
  }

  /** A window of some chromosome covers the position exactly when one
      chromosome's window list does. */
  lemma WindowCoversPerChromosome(windowsByChrom: seq<seq<Window>>, c: string, p: nat)
    ensures WindowCovers(windowsByChrom, c, p) <==>
      exists i :: 0 <= i < |windowsByChrom| && Covers(IntervalsOf(windowsByChrom[i]), c, p)
  {
    if WindowCovers(windowsByChrom, c, p) {
      var i, k :| 0 <= i < |windowsByChrom| && 0 <= k < |windowsByChrom[i]| &&
        InInterval(ToInterval(windowsByChrom[i][k]), c, p);
      assert InInterval(IntervalsOf(windowsByChrom[i])[k], c, p);
    }
    if exists i :: 0 <= i < |windowsByChrom| && Covers(IntervalsOf(windowsByChrom[i]), c, p) {
      var i :| 0 <= i < |windowsByChrom| && Covers(IntervalsOf(windowsByChrom[i]), c, p);
      var k :| 0 <= k < |windowsByChrom[i]| && InInterval(IntervalsOf(windowsByChrom[i])[k], c, p);
      assert InInterval(ToInterval(windowsByChrom[i][k]), c, p);
    }
  }

  /** Together the high- and low-quality BED lists cover exactly the
      positions covered by the scanned windows. */
  lemma ClassifiedCoverage(windowsByChrom: seq<seq<Window>>, sqrtMeans: seq<real>, mapqCutoff: real, depthFilter: real, c: string, p: nat)
    requires |sqrtMeans| == |windowsByChrom|
    requires OutputBed(Classified(windowsByChrom, sqrtMeans, mapqCutoff, depthFilter).0).Success?
    requires OutputBed(Classified(windowsByChrom, sqrtMeans, mapqCutoff, depthFilter).1).Success?
    ensures var r := Classified(windowsByChrom, sqrtMeans, mapqCutoff, depthFilter);
      Covers(OutputBed(r.0).value, c, p) || Covers(OutputBed(r.1).value, c, p)
      <==> WindowCovers(windowsByChrom, c, p)
  {
    var r := Classified(windowsByChrom, sqrtMeans, mapqCutoff, depthFilter);
    OutputBedCovers(r.0, c, p);
    OutputBedCovers(r.1, c, p);
    WindowCoversPerChromosome(windowsByChrom, c, p);
    forall i | 0 <= i < |windowsByChrom|
      ensures Covers(r.0[i], c, p) || Covers(r.1[i], c, p) <==> Covers(IntervalsOf(windowsByChrom[i]), c, p)
    {
      RegionListsCoverage(windowsByChrom[i], mapqCutoff, depthFilter, sqrtMeans[i], c, p);
    }
  }
}
