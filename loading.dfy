/** What the two loaders hand on to the pairing, once the ROOT branches have
    been read and renamed: the run-range filter and the `w` override of the
    numpy script, and the load-time `dw` weighting and `w` override of the
    pandas script. */
module Loading {
  import opened Records

  /** The records with minRun <= RunID < maxRun, in their original order
      (the boolean mask of pctpairprotons_numpy.py). */
  function RunFilter(s: seq<Record>, minRun: int, maxRun: int): seq<Record>
    decreases |s|
  {
    if s == [] then []
    else
      var x := s[|s| - 1];
      RunFilter(s[..|s| - 1], minRun, maxRun) + (if minRun <= x.runId < maxRun then [x] else [])
  }

  /** The filter keeps exactly the in-range records, each as many times as
      it occurs in the input. */
  lemma {:induction false} RunFilterMembers(s: seq<Record>, minRun: int, maxRun: int)
    ensures forall x :: x in RunFilter(s, minRun, maxRun) <==> x in s && minRun <= x.runId < maxRun
    ensures forall y ::
      multiset(RunFilter(s, minRun, maxRun))[y] == (if minRun <= y.runId < maxRun then multiset(s)[y] else 0)
    decreases |s|
  {
    if s != [] {
      var s', x := s[..|s| - 1], s[|s| - 1];
      RunFilterMembers(s', minRun, maxRun);
      assert s == s' + [x];
      assert multiset(s) == multiset(s') + multiset{x};
      var kept := if minRun <= x.runId < maxRun then [x] else [];
      assert multiset(RunFilter(s, minRun, maxRun)) == multiset(RunFilter(s', minRun, maxRun)) + multiset(kept);
    }
  }

  /** The filter keeps the relative order of the records it keeps. */
  lemma {:induction false} RunFilterOrder(s: seq<Record>, minRun: int, maxRun: int)
    ensures Subsequence(RunFilter(s, minRun, maxRun), s)
    decreases |s|
  {
    if s != [] {
      var s', x := s[..|s| - 1], s[|s| - 1];
      RunFilterOrder(s', minRun, maxRun);
      assert s == s' + [x];
      if minRun <= x.runId < maxRun {
        SubsequenceAppendBoth(RunFilter(s', minRun, maxRun), s', x);
      } else {
        SubsequenceExtendRight(RunFilter(s', minRun, maxRun), s', x);
        assert RunFilter(s', minRun, maxRun) + [] == RunFilter(s', minRun, maxRun);
      }
    }
  }

  /** The filter keeps a sorted stream sorted. */
  lemma RunFilterSorted(s: seq<Record>, minRun: int, maxRun: int, noNuclear: bool)
    requires Sorted(s, noNuclear)
    ensures Sorted(RunFilter(s, minRun, maxRun), noNuclear)
  {
    RunFilterOrder(s, minRun, maxRun);
    SubsequenceSorted(RunFilter(s, minRun, maxRun), s, noNuclear);
  }

  /** A stream all of whose runs lie in the range passes unchanged. */
  lemma {:induction false} RunFilterIdentity(s: seq<Record>, minRun: int, maxRun: int)
    requires forall k :: 0 <= k < |s| ==> minRun <= s[k].runId < maxRun
    ensures RunFilter(s, minRun, maxRun) == s
    decreases |s|
  {
    if s != [] {
      var s', x := s[..|s| - 1], s[|s| - 1];
      assert forall k :: 0 <= k < |s'| ==> s'[k] == s[k];
      RunFilterIdentity(s', minRun, maxRun);
      assert minRun <= x.runId < maxRun;
      assert RunFilter(s, minRun, maxRun) == s' + [x];
      assert s == s' + [x];
    }
  }

  /** A record-by-record transformation of a stream. */
  function MapRecords(s: seq<Record>, f: Record -> Record): (r: seq<Record>)
    ensures |r| == |s|
    ensures forall k :: 0 <= k < |s| ==> r[k] == f(s[k])
  {
    seq(|s|, k requires 0 <= k < |s| => f(s[k]))
  }

  /** f leaves RunID, EventID and TrackID alone. */
  ghost predicate KeepsKeys(f: Record -> Record) {
    forall x :: f(x).runId == x.runId && f(x).eventId == x.eventId && f(x).trackId == x.trackId
  }

  /** A transformation that keeps the keys keeps the stream sorted. */
  lemma MapRecordsSorted(s: seq<Record>, f: Record -> Record, noNuclear: bool)
    requires KeepsKeys(f) && Sorted(s, noNuclear)
    ensures Sorted(MapRecords(s, f), noNuclear)
  {
    var r := MapRecords(s, f);
    forall i, j | 0 <= i < j < |r| ensures !KeyLt(r[j], r[i], noNuclear) {
      assert r[i] == f(s[i]) && r[j] == f(s[j]);
    }
  }

  /** The `w` column overwritten with the plane position. */
  function WithPlane(x: Record, plane: int): Record
  {
    x.(w := plane)
  }

  /** The `dw` column multiplied by the weight of the third axis. */
  function Reweighted(x: Record, wweight: int): Record
  {
    x.(dw := x.dw * wweight)
  }

  /** The numpy loader's output: the in-range records, kept in order, with
      `w` set to the plane position. */
  function LoadNumpy(raw: seq<Record>, minRun: int, maxRun: int, plane: int): (r: seq<Record>)
    ensures forall x :: x in r <==> exists y :: y in raw && minRun <= y.runId < maxRun && x == y.(w := plane)
    ensures |r| == |RunFilter(raw, minRun, maxRun)|
    ensures forall k :: 0 <= k < |r| ==> r[k] == RunFilter(raw, minRun, maxRun)[k].(w := plane)
  {
    var kept := RunFilter(raw, minRun, maxRun);
    RunFilterMembers(raw, minRun, maxRun);
    var r := MapRecords(kept, x => WithPlane(x, plane));
    assert forall x :: x in r <==> exists k :: 0 <= k < |kept| && x == kept[k].(w := plane);
    r
  }

  /** The pandas loader's output: every record (there is no run range), with
      `dw` weighted and `w` set to the plane position. */
  function LoadPandas(raw: seq<Record>, wweight: int, plane: int): (r: seq<Record>)
    ensures |r| == |raw|
    ensures forall k :: 0 <= k < |raw| ==> r[k] == raw[k].(dw := raw[k].dw * wweight, w := plane)
  {
    MapRecords(raw, x => WithPlane(Reweighted(x, wweight), plane))
  }
}
