/** The two scripts end to end, and how they compare.

    pctpairprotons_numpy.py loads both streams with the run filter and the
    plane position, deduplicates the in-stream with np.unique, joins with
    `join_phase_spaces` and writes one image per run that has pairs,
    weighting the direction z components at assembly. pctpairprotons.py
    loads every record, weights `dw` at load time, deduplicates with
    drop_duplicates, pairs with an inner merge and writes one image per run
    from 0. */
module Variants {
  import opened Records
  import opened Loading
  import opened Dedup
  import opened Join
  import opened Merge
  import opened Runs
  import opened Layout
  import opened Export

  function ReweightAll(s: seq<Record>, wweight: int): (r: seq<Record>)
    ensures |r| == |s|
    ensures forall k :: 0 <= k < |s| ==> r[k] == Reweighted(s[k], wweight)
  {
    seq(|s|, k requires 0 <= k < |s| => Reweighted(s[k], wweight))
  }

  function ReweightPair(p: Pair, wweight: int): Pair {
    Pair(Reweighted(p.inRec, wweight), Reweighted(p.outRec, wweight))
  }

  function ReweightPairs(ps: seq<Pair>, wweight: int): (r: seq<Pair>)
    ensures |r| == |ps|
    ensures forall k :: 0 <= k < |ps| ==> r[k] == ReweightPair(ps[k], wweight)
  {
    seq(|ps|, k requires 0 <= k < |ps| => ReweightPair(ps[k], wweight))
  }

  /** The pairs of pctpairprotons.py (lines 65-80): drop_duplicates on
      (RunID, EventID), then the inner merge on the same key. */
  function PandasPairs(rawIn: seq<Record>, rawOut: seq<Record>, wweight: int, planeIn: int, planeOut: int): seq<Pair> {
    InnerMerge(DropDuplicates(LoadPandas(rawIn, wweight, planeIn), false), LoadPandas(rawOut, wweight, planeOut), false)
  }

  lemma ReweightAllSnoc(s: seq<Record>, wweight: int)
    requires s != []
    ensures ReweightAll(s, wweight) ==
      ReweightAll(s[..|s| - 1], wweight) + [Reweighted(s[|s| - 1], wweight)]
  {
  }

  lemma KeysReweight(s: seq<Record>, wweight: int, noNuclear: bool)
    ensures Keys(ReweightAll(s, wweight), noNuclear) == Keys(s, noNuclear)
  {
  }

  /** Reweighting leaves the key alone, so the first record of a key is
      found at the same place. */
  lemma FirstMatchReweight(s: seq<Record>, x: Record, wweight: int, noNuclear: bool)
    ensures FirstMatch(ReweightAll(s, wweight), Reweighted(x, wweight), noNuclear) == FirstMatch(s, x, noNuclear)
  {
    var s' := ReweightAll(s, wweight);
    var x' := Reweighted(x, wweight);
    KeysReweight(s, wweight, noNuclear);
    assert HasKey(s', x', noNuclear) == HasKey(s, x, noNuclear);
    var a, b := FirstMatch(s', x', noNuclear), FirstMatch(s, x, noNuclear);
    if a.Some? && b.Some? {
      assert KeyEq(s'[a.value], x', noNuclear) == KeyEq(s[a.value], x, noNuclear);
      assert KeyEq(s'[b.value], x', noNuclear) == KeyEq(s[b.value], x, noNuclear);
    }
  }

  lemma {:induction false} DropDuplicatesReweight(s: seq<Record>, wweight: int, noNuclear: bool)
    ensures DropDuplicates(ReweightAll(s, wweight), noNuclear) == ReweightAll(DropDuplicates(s, noNuclear), wweight)
    decreases |s|
  {
    if s != [] {
      var s', x := s[..|s| - 1], s[|s| - 1];
      DropDuplicatesReweight(s', wweight, noNuclear);
      ReweightAllSnoc(s, wweight);
      KeysReweight(s', wweight, noNuclear);
      var d' := DropDuplicates(s', noNuclear);
      if HasKey(s', x, noNuclear) {
        assert d' + [] == d';
      } else {
        ReweightAllSnoc(d' + [x], wweight);
        assert (d' + [x])[..|d'|] == d';
      }
    }
  }

  lemma {:induction false} InsertByKeyReweight(acc: seq<Record>, x: Record, wweight: int, noNuclear: bool)
    ensures InsertByKey(ReweightAll(acc, wweight), Reweighted(x, wweight), noNuclear) ==
      ReweightAll(InsertByKey(acc, x, noNuclear), wweight)
    decreases |acc|
  {
    if acc != [] {
      InsertByKeyReweight(acc[1..], x, wweight, noNuclear);
      assert ReweightAll(acc, wweight)[1..] == ReweightAll(acc[1..], wweight);
    }
  }

  lemma {:induction false} SortByKeyReweight(s: seq<Record>, wweight: int, noNuclear: bool)
    ensures SortByKey(ReweightAll(s, wweight), noNuclear) == ReweightAll(SortByKey(s, noNuclear), wweight)
    decreases |s|
  {
    if s != [] {
      var s' := s[..|s| - 1];
      SortByKeyReweight(s', wweight, noNuclear);
      ReweightAllSnoc(s, wweight);
      InsertByKeyReweight(SortByKey(s', noNuclear), s[|s| - 1], wweight, noNuclear);
    }
  }

  /** np.unique picks the same records whether or not `dw` is weighted. */
  lemma UniqueReweight(s: seq<Record>, wweight: int, noNuclear: bool)
    ensures Unique(ReweightAll(s, wweight), noNuclear) == ReweightAll(Unique(s, noNuclear), wweight)
  {
    DropDuplicatesReweight(s, wweight, noNuclear);
    SortByKeyReweight(DropDuplicates(s, noNuclear), wweight, noNuclear);
  }

  /** The join pairs the same records whether or not `dw` is weighted. */
  lemma {:induction false} OutOrderJoinReweight(psIn: seq<Record>, psOut: seq<Record>, wweight: int, noNuclear: bool)
    ensures OutOrderJoin(ReweightAll(psIn, wweight), ReweightAll(psOut, wweight), noNuclear) ==
      ReweightPairs(OutOrderJoin(psIn, psOut, noNuclear), wweight)
    decreases |psOut|
  {
    if psOut != [] {
      var psOut', o := psOut[..|psOut| - 1], psOut[|psOut| - 1];
      var j' := OutOrderJoin(psIn, psOut', noNuclear);
      OutOrderJoinReweight(psIn, psOut', wweight, noNuclear);
      ReweightAllSnoc(psOut, wweight);
      FirstMatchReweight(psIn, o, wweight, noNuclear);
      match FirstMatch(psIn, o, noNuclear)
      case Some(i) =>
        assert ReweightPairs(j' + [Pair(psIn[i], o)], wweight) ==
          ReweightPairs(j', wweight) + [ReweightPair(Pair(psIn[i], o), wweight)];
      case None =>
        assert j' + [] == j';
    }
  }

  /** With every record inside the run range, the pandas loader's output
      is the numpy loader's with `dw` weighted. */
  lemma LoadPandasIsReweightedNumpy(raw: seq<Record>, minRun: int, maxRun: int, wweight: int, plane: int)
    requires forall k :: 0 <= k < |raw| ==> minRun <= raw[k].runId < maxRun
    ensures LoadPandas(raw, wweight, plane) == ReweightAll(LoadNumpy(raw, minRun, maxRun, plane), wweight)
  {
    RunFilterIdentity(raw, minRun, maxRun);
  }

  /** The two scripts pair the same protons. Given the same records, all
      inside the run range, and the key (RunID, EventID): the numpy pairs
      (`join_phase_spaces` as specified, over the np.unique-deduplicated
      in-stream), once their `dw` is weighted, are the pandas pairs, as
      many times each. */
  lemma ScriptsPairTheSameProtons(rawIn: seq<Record>, rawOut: seq<Record>, minRun: int, maxRun: int,
                                  planeIn: int, planeOut: int, wweight: int)
    requires forall k :: 0 <= k < |rawIn| ==> minRun <= rawIn[k].runId < maxRun
    requires forall k :: 0 <= k < |rawOut| ==> minRun <= rawOut[k].runId < maxRun
    ensures multiset(ReweightPairs(OutOrderJoin(Unique(LoadNumpy(rawIn, minRun, maxRun, planeIn), false),
                                                LoadNumpy(rawOut, minRun, maxRun, planeOut), false), wweight)) ==
            multiset(PandasPairs(rawIn, rawOut, wweight, planeIn, planeOut))
  {
    var a, b := LoadNumpy(rawIn, minRun, maxRun, planeIn), LoadNumpy(rawOut, minRun, maxRun, planeOut);
    LoadPandasIsReweightedNumpy(rawIn, minRun, maxRun, wweight, planeIn);
    LoadPandasIsReweightedNumpy(rawOut, minRun, maxRun, wweight, planeOut);
    UniqueReweight(a, wweight, false);
    OutOrderJoinReweight(Unique(a, false), b, wweight, false);
    ScriptsPairAlike(ReweightAll(a, wweight), ReweightAll(b, wweight), false);
  }

  /** Which runs each script writes: the numpy script those in
      [min_run, max_run) with pairs, the pandas script every run from 0 to
      the largest. A run with pairs is written by both when it lies in
      [min_run, max_run) and is not negative; only the pandas script writes
      runs without pairs. */
  lemma RunIdsCompared(pairs: seq<Pair>, minRun: int, maxRun: int, r: int)
    requires |pairs| > 0
    ensures r in NumpyRunIds(pairs, minRun, maxRun) && r >= 0 ==> r in PandasRunIds(pairs)
    ensures r in PandasRunIds(pairs) && minRun <= r < maxRun && RunBatch(pairs, r) != [] ==> r in NumpyRunIds(pairs, minRun, maxRun)
    ensures r in PandasRunIds(pairs) && RunBatch(pairs, r) == [] ==> r !in NumpyRunIds(pairs, minRun, maxRun)
  {
    NumpyRunIdsSpec(pairs, minRun, maxRun);
    PandasRunIdsSpec(pairs);
    RunBatchSpec(pairs, r);
    if r in NumpyRunIds(pairs, minRun, maxRun) {
      var p :| p in pairs && p.RunId() == r;
      var k :| 0 <= k < |pairs| && pairs[k] == p;
    }
    if RunBatch(pairs, r) != [] {
      assert RunBatch(pairs, r)[0] in pairs;
    }
  }

  /** pctpairprotons_numpy.py lines 135-163: load, deduplicate with
      np.unique, and join. On an out-stream sorted by the key the pairs
      are those of the specification, in out-stream order, and, with the
      key (RunID, EventID), the pairs of the inner merge over the
      drop_duplicates-deduplicated in-stream. */
  method NumpyPairs(rawIn: seq<Record>, rawOut: seq<Record>, minRun: int, maxRun: int,
                    planeIn: int, planeOut: int, noNuclear: bool) returns (pairs: seq<Pair>)
    requires |LoadNumpy(rawIn, minRun, maxRun, planeIn)| > 0
    requires |LoadNumpy(rawOut, minRun, maxRun, planeOut)| > 0
    ensures forall p :: p in pairs ==> KeyEq(p.inRec, p.outRec, noNuclear)
    ensures Sorted(LoadNumpy(rawOut, minRun, maxRun, planeOut), noNuclear) ==>
      pairs == OutOrderJoin(Unique(LoadNumpy(rawIn, minRun, maxRun, planeIn), noNuclear),
                            LoadNumpy(rawOut, minRun, maxRun, planeOut), noNuclear)
    ensures Sorted(LoadNumpy(rawOut, minRun, maxRun, planeOut), false) && !noNuclear ==>
      multiset(pairs) == multiset(InnerMerge(DropDuplicates(LoadNumpy(rawIn, minRun, maxRun, planeIn), false),
                                             LoadNumpy(rawOut, minRun, maxRun, planeOut), false))
  {
    var psIn := LoadNumpy(rawIn, minRun, maxRun, planeIn);
    var psOut := LoadNumpy(rawOut, minRun, maxRun, planeOut);
    ghost var loaded := psIn;
    psIn := Unique(psIn, noNuclear);
    UniqueSpec(loaded, noNuclear);
    StrictlySortedIff(psIn, noNuclear);
    assert HasKey(loaded, loaded[0], noNuclear);
    pairs := JoinPhaseSpaces(psIn, psOut, noNuclear);
    ScriptsPairAlike(loaded, psOut, noNuclear);
  }

  /** The whole of pctpairprotons_numpy.py after loading: the pairs, and
      the images, or none when there are no pairs (the maximum of line 167
      raises ValueError on an empty array). The run loop is the one line
      177 evidently intends, testing the run's own pairs. */
  method NumpyMain(rawIn: seq<Record>, rawOut: seq<Record>, minRun: int, maxRun: int,
                   planeIn: int, planeOut: int, wweight: int, noNuclear: bool, output: string)
    returns (pairs: seq<Pair>, images: Option<seq<Image>>)
    requires |LoadNumpy(rawIn, minRun, maxRun, planeIn)| > 0
    requires |LoadNumpy(rawOut, minRun, maxRun, planeOut)| > 0
    ensures Sorted(LoadNumpy(rawOut, minRun, maxRun, planeOut), noNuclear) ==>
      pairs == OutOrderJoin(Unique(LoadNumpy(rawIn, minRun, maxRun, planeIn), noNuclear),
                            LoadNumpy(rawOut, minRun, maxRun, planeOut), noNuclear)
    ensures images.None? <==> pairs == []
    ensures images.Some? ==> ImagesOf(images.value, pairs, NumpyRunIds(pairs, minRun, maxRun), output, wweight, noNuclear)
  {
    pairs := NumpyPairs(rawIn, rawOut, minRun, maxRun, planeIn, planeOut, noNuclear);
    if pairs == [] {
      images := None;
    } else {
      var written := ExportNumpy(pairs, minRun, maxRun, wweight, noNuclear, output);
      images := Some(written);
    }
  }

  /** The whole of pctpairprotons.py after loading: the pairs of the
      inner merge, and the images, or none when there are no pairs (the
      maximum of line 83 is then NaN, and `range` at line 90 raises
      TypeError). */
  method PandasMain(rawIn: seq<Record>, rawOut: seq<Record>, planeIn: int, planeOut: int, wweight: int, output: string)
    returns (pairs: seq<Pair>, images: Option<seq<Image>>)
    ensures pairs == PandasPairs(rawIn, rawOut, wweight, planeIn, planeOut)
    ensures images.None? <==> pairs == []
    ensures images.Some? ==> ImagesOf(images.value, pairs, PandasRunIds(pairs), output, 1, false)
  {
    pairs := PandasPairs(rawIn, rawOut, wweight, planeIn, planeOut);
    if pairs == [] {
      images := None;
    } else {
      var written := ExportPandas(pairs, output);
      images := Some(written);
    }
  }
}
