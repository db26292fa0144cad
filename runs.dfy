/** The split of the pairs into runs, one output image per run.

    pctpairprotons_numpy.py (lines 167-178) visits the runs
    `range(min_run, min(max RunID + 1, max_run))` and skips those without
    pairs; pctpairprotons.py (lines 83-93) visits `range(max RunID + 1)`,
    from 0, and keeps the empty ones. */
module Runs {
  import opened Records

  /** `pairs['RunID'].max()`. On an empty pair table the numpy script's
      maximum raises ValueError, and the pandas script's is NaN, on which
      its `range` raises TypeError. */
  function MaxRun(pairs: seq<Pair>): (m: int)
    requires |pairs| > 0
    ensures exists k :: 0 <= k < |pairs| && pairs[k].RunId() == m
    ensures forall k :: 0 <= k < |pairs| ==> pairs[k].RunId() <= m
    decreases |pairs|
  {
    if |pairs| == 1 then pairs[0].RunId()
    else
      var m' := MaxRun(pairs[..|pairs| - 1]);
      var x := pairs[|pairs| - 1].RunId();
      assert forall k :: 0 <= k < |pairs| - 1 ==> pairs[k] == pairs[..|pairs| - 1][k];
      if x > m' then x else m'
  }

  /** `pairs[pairs['RunID'] == r]`: the pairs of run r, in order. */
  function RunBatch(pairs: seq<Pair>, r: int): seq<Pair>
    decreases |pairs|
  {
    if pairs == [] then []
    else
      var p := pairs[|pairs| - 1];
      RunBatch(pairs[..|pairs| - 1], r) + (if p.RunId() == r then [p] else [])
  }

  /** The pairs whose run lies in [lo, hi), in order. */
  function InRuns(pairs: seq<Pair>, lo: int, hi: int): seq<Pair>
    decreases |pairs|
  {
    if pairs == [] then []
    else
      var p := pairs[|pairs| - 1];
      InRuns(pairs[..|pairs| - 1], lo, hi) + (if lo <= p.RunId() < hi then [p] else [])
  }

  /** Python's `range(lo, hi)`. */
  function RunRange(lo: int, hi: int): (r: seq<int>)
    ensures |r| == if lo < hi then hi - lo else 0
    ensures forall k :: 0 <= k < |r| ==> r[k] == lo + k
  {
    seq(if lo < hi then hi - lo else 0, k => lo + k)
  }

  function Min(a: int, b: int): int {
    if a < b then a else b
  }

  /** The runs of `runs` that have pairs (the `continue` of line 178). */
  function NonEmptyRuns(pairs: seq<Pair>, runs: seq<int>): seq<int>
    decreases |runs|
  {
    if runs == [] then []
    else
      var r := runs[|runs| - 1];
      NonEmptyRuns(pairs, runs[..|runs| - 1]) + (if RunBatch(pairs, r) != [] then [r] else [])
  }

  /** The runs pctpairprotons_numpy.py writes an image for. */
  function NumpyRunIds(pairs: seq<Pair>, minRun: int, maxRun: int): seq<int>
    requires |pairs| > 0
  {
    NonEmptyRuns(pairs, RunRange(minRun, Min(MaxRun(pairs) + 1, maxRun)))
  }

  /** The runs pctpairprotons.py writes an image for. */
  function PandasRunIds(pairs: seq<Pair>): seq<int>
    requires |pairs| > 0
  {
    RunRange(0, MaxRun(pairs) + 1)
  }

  /** The concatenated batches of the given runs. */
  function Batches(pairs: seq<Pair>, runs: seq<int>): seq<Pair>
    decreases |runs|
  {
    if runs == [] then []
    else Batches(pairs, runs[..|runs| - 1]) + RunBatch(pairs, runs[|runs| - 1])
  }

  predicate Increasing(s: seq<int>) {
    forall i, j :: 0 <= i < j < |s| ==> s[i] < s[j]
  }

  /** A batch is exactly the pairs of its run, in their order. */
  lemma {:induction false} RunBatchSpec(pairs: seq<Pair>, r: int)
    ensures forall p :: p in RunBatch(pairs, r) <==> p in pairs && p.RunId() == r
    ensures Subsequence(RunBatch(pairs, r), pairs)
    decreases |pairs|
  {
    if pairs != [] {
      var pairs', p := pairs[..|pairs| - 1], pairs[|pairs| - 1];
      var b' := RunBatch(pairs', r);
      RunBatchSpec(pairs', r);
      assert pairs == pairs' + [p];
      if p.RunId() == r {
        SubsequenceAppendBoth(b', pairs', p);
      } else {
        assert b' + [] == b';
        SubsequenceExtendRight(b', pairs', p);
      }
    }
  }

  lemma {:induction false} NonEmptyRunsSpec(pairs: seq<Pair>, runs: seq<int>)
    ensures forall r :: r in NonEmptyRuns(pairs, runs) <==> r in runs && RunBatch(pairs, r) != []
    ensures Subsequence(NonEmptyRuns(pairs, runs), runs)
    decreases |runs|
  {
    if runs != [] {
      var runs', r := runs[..|runs| - 1], runs[|runs| - 1];
      var n' := NonEmptyRuns(pairs, runs');
      NonEmptyRunsSpec(pairs, runs');
      assert runs == runs' + [r];
      if RunBatch(pairs, r) != [] {
        SubsequenceAppendBoth(n', runs', r);
      } else {
        assert n' + [] == n';
        SubsequenceExtendRight(n', runs', r);
      }
    }
  }

  lemma {:induction false} SubsequenceIncreasing(a: seq<int>, b: seq<int>)
    requires Subsequence(a, b) && Increasing(b)
    ensures Increasing(a)
    decreases |b|
  {
    if a != [] && b != [] {
      var a', b' := a[..|a| - 1], b[..|b| - 1];
      if a[|a| - 1] == b[|b| - 1] {
        SubsequenceIncreasing(a', b');
        SubsequenceMembers(a', b');
        forall i | 0 <= i < |a'| ensures a[i] < a[|a| - 1] {
          assert a[i] == a'[i] && a'[i] in b';
        }
      } else {
        SubsequenceIncreasing(a, b');
      }
    }
  }

  /** The numpy variant writes the runs in [min_run, max_run) that have a
      pair, each once and in ascending order; the bound `max RunID + 1`
      never excludes a run with pairs. */
  lemma NumpyRunIdsSpec(pairs: seq<Pair>, minRun: int, maxRun: int)
    requires |pairs| > 0
    ensures forall r :: r in NumpyRunIds(pairs, minRun, maxRun) <==>
      minRun <= r < maxRun && exists p :: p in pairs && p.RunId() == r
    ensures Increasing(NumpyRunIds(pairs, minRun, maxRun))
  {
    var range := RunRange(minRun, Min(MaxRun(pairs) + 1, maxRun));
    NonEmptyRunsSpec(pairs, range);
    SubsequenceIncreasing(NumpyRunIds(pairs, minRun, maxRun), range);
    forall r ensures r in NumpyRunIds(pairs, minRun, maxRun) <==>
      minRun <= r < maxRun && exists p :: p in pairs && p.RunId() == r
    {
      NumpyRunId(pairs, minRun, maxRun, r);
    }
  }

  lemma NumpyRunId(pairs: seq<Pair>, minRun: int, maxRun: int, r: int)
    requires |pairs| > 0
    ensures r in NumpyRunIds(pairs, minRun, maxRun) <==>
      minRun <= r < maxRun && exists p :: p in pairs && p.RunId() == r
  {
    var range := RunRange(minRun, Min(MaxRun(pairs) + 1, maxRun));
    NonEmptyRunsSpec(pairs, range);
    RunBatchSpec(pairs, r);
    if r in NumpyRunIds(pairs, minRun, maxRun) {
      var p := RunBatch(pairs, r)[0];
      assert p in pairs && p.RunId() == r;
    }
    if minRun <= r < maxRun && exists p :: p in pairs && p.RunId() == r {
      var p :| p in pairs && p.RunId() == r;
      assert p in RunBatch(pairs, r);
      assert range[r - minRun] == r;
    }
  }

  /** The pandas variant writes every run from 0 to the largest, with or
      without pairs, in ascending order. */
  lemma PandasRunIdsSpec(pairs: seq<Pair>)
    requires |pairs| > 0
    ensures forall r :: r in PandasRunIds(pairs) <==> 0 <= r <= MaxRun(pairs)
    ensures Increasing(PandasRunIds(pairs))
  {
    var ids := PandasRunIds(pairs);
    forall r | 0 <= r <= MaxRun(pairs) ensures r in ids {
      assert ids[r] == r;
    }
  }

  lemma {:induction false} InRunsSplit(pairs: seq<Pair>, lo: int, hi: int)
    requires lo < hi
    ensures multiset(InRuns(pairs, lo, hi)) ==
      multiset(InRuns(pairs, lo, hi - 1)) + multiset(RunBatch(pairs, hi - 1))
    decreases |pairs|
  {
    if pairs != [] {
      InRunsSplit(pairs[..|pairs| - 1], lo, hi);
    }
  }

  lemma {:induction false} InRunsEmpty(pairs: seq<Pair>, lo: int, hi: int)
    requires hi <= lo
    ensures InRuns(pairs, lo, hi) == []
    decreases |pairs|
  {
    if pairs != [] {
      InRunsEmpty(pairs[..|pairs| - 1], lo, hi);
    }
  }

  /** The batches of the runs lo, ..., hi - 1 hold the pairs of those runs. */
  lemma {:induction false} BatchesOfRange(pairs: seq<Pair>, lo: int, hi: int)
    ensures multiset(Batches(pairs, RunRange(lo, hi))) == multiset(InRuns(pairs, lo, hi))
    decreases if lo < hi then hi - lo else 0
  {
    if lo < hi {
      BatchesOfRange(pairs, lo, hi - 1);
      InRunsSplit(pairs, lo, hi);
      assert RunRange(lo, hi)[..hi - 1 - lo] == RunRange(lo, hi - 1);
    } else {
      InRunsEmpty(pairs, lo, hi);
    }
  }

  /** Skipping runs without pairs loses nothing. */
  lemma {:induction false} BatchesOfNonEmpty(pairs: seq<Pair>, runs: seq<int>)
    ensures Batches(pairs, NonEmptyRuns(pairs, runs)) == Batches(pairs, runs)
    decreases |runs|
  {
    if runs != [] {
      var runs', r := runs[..|runs| - 1], runs[|runs| - 1];
      BatchesOfNonEmpty(pairs, runs');
      var n' := NonEmptyRuns(pairs, runs');
      if RunBatch(pairs, r) != [] {
        assert (n' + [r])[..|n'|] == n';
      } else {
        assert n' + [] == n';
        assert Batches(pairs, runs) == Batches(pairs, runs') + [];
      }
    }
  }

  /** No pair has a run beyond the largest one. */
  lemma {:induction false} InRunsUpToMax(pairs: seq<Pair>, lo: int, hi: int, hi': int)
    requires forall k :: 0 <= k < |pairs| ==> pairs[k].RunId() < hi'
    requires hi' <= hi
    ensures InRuns(pairs, lo, hi') == InRuns(pairs, lo, hi)
    decreases |pairs|
  {
    if pairs != [] {
      InRunsUpToMax(pairs[..|pairs| - 1], lo, hi, hi');
    }
  }

  /** The numpy images together hold every pair whose run is in
      [min_run, max_run), each once: the batches partition those pairs. */
  lemma NumpyPartition(pairs: seq<Pair>, minRun: int, maxRun: int)
    requires |pairs| > 0
    ensures multiset(Batches(pairs, NumpyRunIds(pairs, minRun, maxRun))) == multiset(InRuns(pairs, minRun, maxRun))
  {
    var m := MaxRun(pairs);
    var hi := Min(m + 1, maxRun);
    BatchesOfNonEmpty(pairs, RunRange(minRun, hi));
    BatchesOfRange(pairs, minRun, hi);
    if m + 1 < maxRun {
      InRunsUpToMax(pairs, minRun, maxRun, m + 1);
    }
  }

  /** The pandas images together hold every pair whose run is not
      negative, each once. */
  lemma PandasPartition(pairs: seq<Pair>)
    requires |pairs| > 0
    ensures multiset(Batches(pairs, PandasRunIds(pairs))) == multiset(InRuns(pairs, 0, MaxRun(pairs) + 1))
  {
    BatchesOfRange(pairs, 0, MaxRun(pairs) + 1);
  }

  /** When no run is negative the pandas images hold every pair, each
      once. */
  lemma PandasPartitionAll(pairs: seq<Pair>)
    requires |pairs| > 0
    requires forall k :: 0 <= k < |pairs| ==> pairs[k].RunId() >= 0
    ensures multiset(Batches(pairs, PandasRunIds(pairs))) == multiset(pairs)
  {
    var m := MaxRun(pairs);
    PandasPartition(pairs);
    assert forall k :: 0 <= k < |pairs| ==> 0 <= pairs[k].RunId() < m + 1;
    InRunsAll(pairs, 0, m + 1);
    assert InRuns(pairs, 0, m + 1) == pairs;
  }

  lemma {:induction false} InRunsAll(pairs: seq<Pair>, lo: int, hi: int)
    requires forall k :: 0 <= k < |pairs| ==> lo <= pairs[k].RunId() < hi
    ensures InRuns(pairs, lo, hi) == pairs
    decreases |pairs|
  {
    if pairs != [] {
      var pairs' := pairs[..|pairs| - 1];
      assert forall k :: 0 <= k < |pairs'| ==> pairs'[k] == pairs[k];
      InRunsAll(pairs', lo, hi);
      assert pairs == pairs' + [pairs[|pairs| - 1]];
    }
  }
}
