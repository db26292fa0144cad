/** The run loops that turn the pair table into one image per run
    (pctpairprotons_numpy.py lines 167-200, pctpairprotons.py lines
    83-118). Writing the image file is left out; an image is its name and
    its (n, 5, 3) array. */
module Export {
  import opened Records
  import opened Runs
  import opened Layout
  import opened Naming

  datatype Image = Image(name: string, pixels: array3<int>)

  /** The array holds the slices of the batch, in its order. */
  predicate HoldsBatch(a: array3<int>, batch: seq<Pair>, dwFactor: int, noNuclear: bool)
    reads a
  {
    && a.Length0 == |batch| && a.Length1 == 5 && a.Length2 == 3
    && forall n, row, col :: 0 <= n < |batch| && 0 <= row < 5 && 0 <= col < 3 ==>
         a[n, row, col] == Features(batch[n], dwFactor, noNuclear)[row][col]
  }

  /** The images are those of the given runs, in their order: the k-th is
      named after the k-th run and holds that run's batch. */
  predicate ImagesOf(images: seq<Image>, pairs: seq<Pair>, runs: seq<int>, output: string, dwFactor: int, noNuclear: bool)
    reads set k | 0 <= k < |images| :: images[k].pixels
  {
    && |images| == |runs|
    && forall k :: 0 <= k < |images| ==>
         images[k].name == OutputName(output, runs[k]) &&
         HoldsBatch(images[k].pixels, RunBatch(pairs, runs[k]), dwFactor, noNuclear)
  }

  lemma NonEmptyRunsStep(pairs: seq<Pair>, lo: int, r: int)
    requires lo <= r
    ensures NonEmptyRuns(pairs, RunRange(lo, r + 1)) ==
      NonEmptyRuns(pairs, RunRange(lo, r)) + (if RunBatch(pairs, r) != [] then [r] else [])
  {
    assert RunRange(lo, r + 1)[..r - lo] == RunRange(lo, r);
  }

  /** The run loop of pctpairprotons_numpy.py (lines 167-200), with the
      emptiness test of line 177 applied to the run's pairs: one image per
      run in [min_run, max_run) that has pairs, in ascending order, its
      direction z components scaled by `wweight`. */
  method ExportNumpy(pairs: seq<Pair>, minRun: int, maxRun: int, wweight: int, noNuclear: bool, output: string)
    returns (images: seq<Image>)
    requires |pairs| > 0
    ensures ImagesOf(images, pairs, NumpyRunIds(pairs, minRun, maxRun), output, wweight, noNuclear)
  {
    var numberOfRuns := MaxRun(pairs) + 1;
    var hi := Min(numberOfRuns, maxRun);
    images := [];
    var r := minRun;
    while r < hi
      invariant r == minRun || minRun < r <= hi
      invariant ImagesOf(images, pairs, NonEmptyRuns(pairs, RunRange(minRun, r)), output, wweight, noNuclear)
    {
      var batch := RunBatch(pairs, r);
      NonEmptyRunsStep(pairs, minRun, r);
      if |batch| != 0 {
        var a := AssembleBatch(batch, wweight, noNuclear);
        images := images + [Image(OutputName(output, r), a)];
      }
      r := r + 1;
    }
    if hi <= minRun {
      assert RunRange(minRun, hi) == [] == RunRange(minRun, r);
    }
  }

  /** The run loop of pctpairprotons.py (lines 83-118): one image per run
      from 0 to the largest, an empty (0, 5, 3) one for a run without
      pairs, the directions as loaded and the exit record's track id. */
  method ExportPandas(pairs: seq<Pair>, output: string) returns (images: seq<Image>)
    requires |pairs| > 0
    ensures ImagesOf(images, pairs, PandasRunIds(pairs), output, 1, false)
    ensures forall k :: 0 <= k < |images| ==> images[k].pixels.Length0 == |RunBatch(pairs, k)|
  {
    var maxRuns := MaxRun(pairs) + 1;
    images := [];
    var r := 0;
    while r < maxRuns
      invariant r == 0 || 0 < r <= maxRuns
      invariant ImagesOf(images, pairs, RunRange(0, r), output, 1, false)
    {
      var batch := RunBatch(pairs, r);
      var a := AssembleBatch(batch, 1, false);
      images := images + [Image(OutputName(output, r), a)];
      r := r + 1;
    }
    if maxRuns <= 0 {
      assert RunRange(0, maxRuns) == [] == RunRange(0, r);
    }
  }

  /** How the numpy run loop ends as written: it completes having written
      the listed runs, or stops with a NameError. */
  datatype LoopOutcome = Completed(written: seq<int>) | NameError

  /** The numpy run loop as written: line 177 tests `len(df_run)`, a name
      that `main` never binds, so the first iteration raises NameError and
      the loop completes only when it has no iteration. */
  function NumpyRunLoopAsWritten(pairs: seq<Pair>, minRun: int, maxRun: int): LoopOutcome
    requires |pairs| > 0
  {
    if RunRange(minRun, Min(MaxRun(pairs) + 1, maxRun)) == [] then Completed([]) else NameError
  }

  /** As written, the numpy script writes no image at all: whenever some
      run in [min_run, max_run) has pairs, the loop raises NameError. */
  lemma NumpyRunLoopAsWrittenWritesNothing(pairs: seq<Pair>, minRun: int, maxRun: int)
    requires |pairs| > 0
    ensures NumpyRunLoopAsWritten(pairs, minRun, maxRun) == NameError || NumpyRunLoopAsWritten(pairs, minRun, maxRun) == Completed([])
    ensures NumpyRunIds(pairs, minRun, maxRun) != [] ==> NumpyRunLoopAsWritten(pairs, minRun, maxRun) == NameError
  {
    if NumpyRunIds(pairs, minRun, maxRun) != [] {
      NonEmptyRunsSpec(pairs, RunRange(minRun, Min(MaxRun(pairs) + 1, maxRun)));
      var r := NumpyRunIds(pairs, minRun, maxRun)[0];
      assert r in RunRange(minRun, Min(MaxRun(pairs) + 1, maxRun));
    }
  }

  /** A concrete input: one pair of run 0, with the default run bounds
      0 and 1000000. The intended loop writes run 0; the loop as written
      raises NameError. */
  lemma NumpyRunLoopCounterexample(x: Record)
    requires x.runId == 0
    ensures NumpyRunIds([Pair(x, x)], 0, 1000000) == [0]
    ensures NumpyRunLoopAsWritten([Pair(x, x)], 0, 1000000) == NameError
  {
    var pairs := [Pair(x, x)];
    assert MaxRun(pairs) == 0;
    assert RunBatch(pairs, 0) == [Pair(x, x)] by {
      assert pairs[..0] == [];
    }
    assert RunRange(0, 1) == [0];
    assert RunRange(0, 1)[..0] == [];
  }
}
