/** The hand-written merge-join `join_phase_spaces` of
    pctpairprotons_numpy.py, and the pairing it is meant to compute.

    The script walks two cursors, one over the in-stream and one over the
    out-stream. For each out-record it moves the in-cursor forward past the
    in-records that are behind it (three loops: by run, by event within the
    run, and by track within the event when nuclear interactions are
    excluded), emits a pair when the two keys are equal, and then moves the
    out-cursor on by one. The in-cursor is not moved on a match, so one
    in-record pairs with every following out-record of its key. A cursor
    that runs past the end of its stream ends the join. */
module Join {
  import opened Records

  /** The pairing the join is meant to compute: every out-record, in the
      order of the out-stream, paired with the first in-record that has its
      key; an out-record whose key no in-record has is dropped. */
  function OutOrderJoin(psIn: seq<Record>, psOut: seq<Record>, noNuclear: bool): seq<Pair>
    decreases |psOut|
  {
    if psOut == [] then []
    else
      var o := psOut[|psOut| - 1];
      OutOrderJoin(psIn, psOut[..|psOut| - 1], noNuclear) +
        match FirstMatch(psIn, o, noNuclear)
        case Some(i) => [Pair(psIn[i], o)]
        case None => []
  }

  /** The out-records whose key occurs in the in-stream, in order. */
  function Matched(psIn: seq<Record>, psOut: seq<Record>, noNuclear: bool): seq<Record>
    decreases |psOut|
  {
    if psOut == [] then []
    else
      var o := psOut[|psOut| - 1];
      Matched(psIn, psOut[..|psOut| - 1], noNuclear) + (if HasKey(psIn, o, noNuclear) then [o] else [])
  }

  /** An out-record survives exactly when some in-record has its key, and
      the survivors keep their order: out-records with no partner, and
      in-records with no partner, contribute nothing. */
  lemma {:induction false} MatchedSpec(psIn: seq<Record>, psOut: seq<Record>, noNuclear: bool)
    ensures forall o :: o in Matched(psIn, psOut, noNuclear) <==> o in psOut && HasKey(psIn, o, noNuclear)
    ensures Subsequence(Matched(psIn, psOut, noNuclear), psOut)
    decreases |psOut|
  {
    if psOut != [] {
      var rest, o := psOut[..|psOut| - 1], psOut[|psOut| - 1];
      var m := Matched(psIn, rest, noNuclear);
      MatchedSpec(psIn, rest, noNuclear);
      assert psOut == rest + [o];
      if HasKey(psIn, o, noNuclear) {
        SubsequenceAppendBoth(m, rest, o);
      } else {
        assert m + [] == m;
        SubsequenceExtendRight(m, rest, o);
      }
    }
  }

  /** What the pairing is: its out-records are the matched out-records in
      order, and each is paired with the first in-record of its key. The
      key of every pair agrees on both sides. */
  lemma {:induction false} OutOrderJoinSpec(psIn: seq<Record>, psOut: seq<Record>, noNuclear: bool)
    ensures Outs(OutOrderJoin(psIn, psOut, noNuclear)) == Matched(psIn, psOut, noNuclear)
    ensures forall k :: 0 <= k < |OutOrderJoin(psIn, psOut, noNuclear)| ==>
      var p := OutOrderJoin(psIn, psOut, noNuclear)[k];
      FirstMatch(psIn, p.outRec, noNuclear).Some? &&
      p.inRec == psIn[FirstMatch(psIn, p.outRec, noNuclear).value] &&
      KeyEq(p.inRec, p.outRec, noNuclear)
    decreases |psOut|
  {
    if psOut != [] {
      var rest, o := psOut[..|psOut| - 1], psOut[|psOut| - 1];
      OutOrderJoinSpec(psIn, rest, noNuclear);
      var r, r' := OutOrderJoin(psIn, psOut, noNuclear), OutOrderJoin(psIn, rest, noNuclear);
      var m' := Matched(psIn, rest, noNuclear);
      match FirstMatch(psIn, o, noNuclear)
      case Some(i) =>
        assert r == r' + [Pair(psIn[i], o)];
        assert Outs(r) == Outs(r') + [o];
      case None =>
        assert r == r' + [] == r';
        assert Matched(psIn, psOut, noNuclear) == m' + [] == m';
    }
  }

  /** One in-record serves many out-records: two pairs whose out-records
      share a key carry the same in-record. */
  lemma OneToMany(psIn: seq<Record>, psOut: seq<Record>, noNuclear: bool, k: nat, l: nat)
    requires k < |OutOrderJoin(psIn, psOut, noNuclear)| && l < |OutOrderJoin(psIn, psOut, noNuclear)|
    requires KeyEq(OutOrderJoin(psIn, psOut, noNuclear)[k].outRec, OutOrderJoin(psIn, psOut, noNuclear)[l].outRec, noNuclear)
    ensures OutOrderJoin(psIn, psOut, noNuclear)[k].inRec == OutOrderJoin(psIn, psOut, noNuclear)[l].inRec
  {
    OutOrderJoinSpec(psIn, psOut, noNuclear);
    var r := OutOrderJoin(psIn, psOut, noNuclear);
    FirstMatchSameKey(psIn, r[k].outRec, r[l].outRec, noNuclear);
  }

  /** FirstMatch depends on the key only. */
  lemma {:induction false} FirstMatchSameKey(s: seq<Record>, x: Record, y: Record, noNuclear: bool)
    requires KeyEq(x, y, noNuclear)
    ensures FirstMatch(s, x, noNuclear) == FirstMatch(s, y, noNuclear)
    decreases |s|
  {
    if s != [] {
      FirstMatchSameKey(s[..|s| - 1], x, y, noNuclear);
    }
  }

  /** The pairs come out in ascending key order when the out-stream is
      sorted. */
  lemma OutOrderJoinSorted(psIn: seq<Record>, psOut: seq<Record>, noNuclear: bool)
    requires Sorted(psOut, noNuclear)
    ensures Sorted(Outs(OutOrderJoin(psIn, psOut, noNuclear)), noNuclear)
  {
    OutOrderJoinSpec(psIn, psOut, noNuclear);
    MatchedSpec(psIn, psOut, noNuclear);
    SubsequenceSorted(Matched(psIn, psOut, noNuclear), psOut, noNuclear);
  }

  /** With nuclear interactions excluded, every pair follows one track. */
  lemma NoNuclearSameTrack(psIn: seq<Record>, psOut: seq<Record>)
    ensures forall p :: p in OutOrderJoin(psIn, psOut, true) ==> p.inRec.trackId == p.outRec.trackId
  {
    OutOrderJoinSpec(psIn, psOut, true);
  }

  /** The three inner loops of the join: by run (line 42), by event within
      the run (line 45), by track within the event (line 49). */
  datatype Stage = ByRun | ByEvent | ByTrack

  /** The condition under which an inner loop moves the in-cursor on past
      x while o is the current out-record. */
  predicate Lags(x: Record, o: Record, stage: Stage) {
    match stage
    case ByRun => x.runId < o.runId
    case ByEvent => x.eventId < o.eventId && x.runId == o.runId
    case ByTrack => x.trackId < o.trackId && x.eventId == o.eventId && x.runId == o.runId
  }

  /** One inner loop: move the in-cursor forward from i while the record
      under it lags behind o. It stops at the first record that does not
      lag, or reports the in-stream exhausted when `next` would run past its
      last record; the cursor then stays on that last record. */
  method AdvanceIn(psIn: seq<Record>, i: nat, o: Record, stage: Stage) returns (i': nat, exhausted: bool)
    requires i < |psIn|
    ensures i <= i' < |psIn|
    ensures forall k :: i <= k < i' ==> Lags(psIn[k], o, stage)
    ensures exhausted <==> Lags(psIn[i'], o, stage)
    ensures exhausted ==> i' == |psIn| - 1
  {
    i', exhausted := i, false;
    while Lags(psIn[i'], o, stage)
      invariant i <= i' < |psIn|
      invariant forall k :: i <= k < i' ==> Lags(psIn[k], o, stage)
      decreases |psIn| - i'
    {
      if i' + 1 == |psIn| {
        exhausted := true;
        return;
      }
      i' := i' + 1;
    }
  }

  /** Lines 42-50 as one block: the three inner loops in turn, the track
      loop only when nuclear interactions are excluded. The cursor only
      moves forward, and every record it passes is behind o. If the
      in-stream runs out the cursor stays on its last record, which is
      behind o too. Otherwise, on a sorted in-stream, the cursor stops on
      the first record whose key is not below o's. */
  method AdvanceAll(psIn: seq<Record>, i: nat, o: Record, noNuclear: bool) returns (i': nat, exhausted: bool)
    requires i < |psIn|
    ensures i <= i' < |psIn|
    ensures forall k :: i <= k < i' ==> KeyLt(psIn[k], o, noNuclear)
    ensures exhausted ==> i' == |psIn| - 1 && KeyLt(psIn[i'], o, noNuclear)
    ensures !exhausted && Sorted(psIn, noNuclear) ==> !KeyLt(psIn[i'], o, noNuclear)
  {
    i', exhausted := AdvanceIn(psIn, i, o, ByRun);
    ghost var i1 := i';
    if !exhausted {
      i', exhausted := AdvanceIn(psIn, i', o, ByEvent);
    }
    ghost var i2 := i';
    if !exhausted && noNuclear {
      i', exhausted := AdvanceIn(psIn, i', o, ByTrack);
    }
    if !exhausted && Sorted(psIn, noNuclear) {
      assert !KeyLt(psIn[i2], psIn[i1], noNuclear);
      assert !KeyLt(psIn[i'], psIn[i2], noNuclear);
    }
  }

  /** `join_phase_spaces(ps_in, ps_out, no_nuclear)`.

      Whatever the input, every pair joins records with equal keys, its
      in-record comes from the in-stream and its out-records form a
      subsequence of the out-stream (each out-record is used at most once,
      in order). On sorted streams the result is exactly OutOrderJoin: every
      out-record whose key the in-stream has, paired with the first
      in-record of that key. Both streams must be non-empty: the first
      `next` on each stream is outside the `try`. */
  method JoinPhaseSpaces(psIn: seq<Record>, psOut: seq<Record>, noNuclear: bool) returns (pairs: seq<Pair>)
    requires |psIn| > 0 && |psOut| > 0
    ensures forall k :: 0 <= k < |pairs| ==>
      KeyEq(pairs[k].inRec, pairs[k].outRec, noNuclear) && pairs[k].inRec in psIn
    ensures Subsequence(Outs(pairs), psOut)
    ensures Sorted(psIn, noNuclear) && Sorted(psOut, noNuclear) ==>
      pairs == OutOrderJoin(psIn, psOut, noNuclear)
  {
    ghost var sorted := Sorted(psIn, noNuclear) && Sorted(psOut, noNuclear);
    pairs := [];
    var i, j := 0, 0;
    SubsequenceReflexive<Record>([]);
    while j < |psOut|
      invariant 0 <= i < |psIn| && 0 <= j <= |psOut|
      invariant forall k :: 0 <= k < |pairs| ==>
        KeyEq(pairs[k].inRec, pairs[k].outRec, noNuclear) && pairs[k].inRec in psIn
      invariant Subsequence(Outs(pairs), psOut[..j])
      invariant sorted ==> InStep(psIn, psOut, pairs, i, j, noNuclear)
      decreases |psOut| - j
    {
      var o := psOut[j];
      var exhausted;
      ghost var i0 := i;
      i, exhausted := AdvanceAll(psIn, i, o, noNuclear);
      if exhausted {
        if sorted {
          JoinRunsOut(psIn, psOut, pairs, i0, j, noNuclear);
        }
        break;
      }
      var matched := psIn[i].runId == o.runId && psIn[i].eventId == o.eventId && (!noNuclear || psIn[i].trackId == o.trackId);
      assert matched == KeyEq(psIn[i], o, noNuclear);
      OutsStep(pairs, psOut, j, Pair(psIn[i], o));
      ghost var before := pairs;
      if matched {
        pairs := pairs + [Pair(psIn[i], o)];
      } else {
        assert pairs == before + [];
      }
      if sorted {
        JoinStep(psIn, psOut, before, i0, i, j, noNuclear);
      }
      j := j + 1;
    }
    if j == |psOut| {
      assert psOut[..j] == psOut;
    }
    SubsequenceExtend(Outs(pairs), psOut[..j], psOut[j..]);
    assert psOut[..j] + psOut[j..] == psOut;
  }

  /** The out-records paired so far stay a subsequence of the out-records
      seen, whether or not the current one is paired. */
  lemma OutsStep(pairs: seq<Pair>, psOut: seq<Record>, j: nat, p: Pair)
    requires j < |psOut| && p.outRec == psOut[j]
    requires Subsequence(Outs(pairs), psOut[..j])
    ensures Subsequence(Outs(pairs + [p]), psOut[..j + 1])
    ensures Subsequence(Outs(pairs), psOut[..j + 1])
  {
    assert psOut[..j + 1] == psOut[..j] + [psOut[j]];
    assert Outs(pairs + [p]) == Outs(pairs) + [p.outRec];
    SubsequenceAppendBoth(Outs(pairs), psOut[..j], psOut[j]);
    SubsequenceExtendRight(Outs(pairs), psOut[..j], psOut[j]);
  }

  /** What holds of the join on sorted streams before it looks at the
      out-record at j with the in-cursor at i: the pairs so far are the
      pairing of the first j out-records, and every in-record before the
      cursor is behind the current out-record. */
  ghost predicate InStep(psIn: seq<Record>, psOut: seq<Record>, pairs: seq<Pair>, i: nat, j: nat, noNuclear: bool)
    requires i < |psIn| && j <= |psOut|
  {
    && Sorted(psIn, noNuclear) && Sorted(psOut, noNuclear)
    && pairs == OutOrderJoin(psIn, psOut[..j], noNuclear)
    && (j < |psOut| ==> forall k :: 0 <= k < i ==> KeyLt(psIn[k], psOut[j], noNuclear))
  }

  /** One round of the join on sorted streams: once the in-cursor has moved
      from i0 to the first in-record i not behind the out-record at j, the
      pairing of the first j + 1 out-records extends that of the first j by
      the pair the cursors show, if their keys agree. */
  lemma JoinStep(psIn: seq<Record>, psOut: seq<Record>, pairs: seq<Pair>, i0: nat, i: nat, j: nat, noNuclear: bool)
    requires i0 <= i < |psIn| && j < |psOut|
    requires InStep(psIn, psOut, pairs, i0, j, noNuclear)
    requires forall k :: i0 <= k < i ==> KeyLt(psIn[k], psOut[j], noNuclear)
    requires !KeyLt(psIn[i], psOut[j], noNuclear)
    ensures InStep(psIn, psOut,
      pairs + (if KeyEq(psIn[i], psOut[j], noNuclear) then [Pair(psIn[i], psOut[j])] else []),
      i, j + 1, noNuclear)
  {
    FirstMatchAt(psIn, psOut[j], i, noNuclear);
    assert psOut[..j + 1][..j] == psOut[..j];
    if j + 1 < |psOut| {
      assert !KeyLt(psOut[j + 1], psOut[j], noNuclear);
    }
  }

  /** The in-stream ran out while the out-record at j was current: every
      in-record is behind it, so the pairs so far are the whole pairing. */
  lemma JoinRunsOut(psIn: seq<Record>, psOut: seq<Record>, pairs: seq<Pair>, i0: nat, j: nat, noNuclear: bool)
    requires i0 < |psIn| && j < |psOut|
    requires InStep(psIn, psOut, pairs, i0, j, noNuclear)
    requires forall k :: i0 <= k < |psIn| ==> KeyLt(psIn[k], psOut[j], noNuclear)
    ensures pairs == OutOrderJoin(psIn, psOut, noNuclear)
  {
    NothingMatchesFrom(psIn, psOut, j, |psOut|, noNuclear);
    assert psOut[..|psOut|] == psOut;
  }

  /** In a sorted in-stream whose records before i are all behind o and
      whose record i is not, the first record with o's key is record i if
      its key is o's, and there is none otherwise. */
  lemma FirstMatchAt(psIn: seq<Record>, o: Record, i: nat, noNuclear: bool)
    requires Sorted(psIn, noNuclear) && i < |psIn|
    requires forall k :: 0 <= k < i ==> KeyLt(psIn[k], o, noNuclear)
    requires !KeyLt(psIn[i], o, noNuclear)
    ensures FirstMatch(psIn, o, noNuclear) == if KeyEq(psIn[i], o, noNuclear) then Some(i) else None
  {
    if KeyEq(psIn[i], o, noNuclear) {
      assert Keys(psIn, noNuclear)[i] == KeyOf(o, noNuclear);
      var j := FirstMatch(psIn, o, noNuclear).value;
      assert !KeyLt(psIn[j], o, noNuclear);
    } else {
      forall k | 0 <= k < |psIn|
        ensures Keys(psIn, noNuclear)[k] != KeyOf(o, noNuclear)
      {
        if i <= k {
          assert !KeyLt(psIn[k], psIn[i], noNuclear);
        }
      }
    }
  }

  /** When every in-record is behind the out-record at j of a sorted
      out-stream, no out-record from j on finds a partner. */
  lemma {:induction false} NothingMatchesFrom(psIn: seq<Record>, psOut: seq<Record>, j: nat, n: nat, noNuclear: bool)
    requires Sorted(psOut, noNuclear) && j <= n <= |psOut| && j < |psOut|
    requires forall k :: 0 <= k < |psIn| ==> KeyLt(psIn[k], psOut[j], noNuclear)
    ensures OutOrderJoin(psIn, psOut[..n], noNuclear) == OutOrderJoin(psIn, psOut[..j], noNuclear)
    decreases n
  {
    if n > j {
      NothingMatchesFrom(psIn, psOut, j, n - 1, noNuclear);
      assert psOut[..n][..n - 1] == psOut[..n - 1];
      assert !KeyLt(psOut[n - 1], psOut[j], noNuclear);
    }
  }
}
