/** The pairing of pctpairprotons.py, stated relationally:
    `pd.merge(df_in.drop_duplicates(keys), df_out, on=keys, how='inner')`.

    An inner merge yields one row for every (left row, right row) with equal
    keys; pandas lists them by left row, and for one left row in the order
    of the right rows. The lemmas here compare it with the hand-written join
    of pctpairprotons_numpy.py: on deduplicated input both yield the same
    pairs, the join in the order of the out-stream. */
module Merge {
  import opened Records
  import opened Dedup
  import opened Join

  /** The rows the merge makes of one left row: one per right row with the
      same key, in the order of the right rows. */
  function MatchesOf(l: Record, right: seq<Record>, noNuclear: bool): seq<Pair>
    decreases |right|
  {
    if right == [] then []
    else
      var o := right[|right| - 1];
      MatchesOf(l, right[..|right| - 1], noNuclear) + (if KeyEq(l, o, noNuclear) then [Pair(l, o)] else [])
  }

  /** `pd.merge(left, right, on=keys, how='inner')`. */
  function InnerMerge(left: seq<Record>, right: seq<Record>, noNuclear: bool): seq<Pair>
    decreases |left|
  {
    if left == [] then []
    else InnerMerge(left[..|left| - 1], right, noNuclear) + MatchesOf(left[|left| - 1], right, noNuclear)
  }

  lemma {:induction false} MatchesOfSpec(l: Record, right: seq<Record>, noNuclear: bool)
    ensures forall p :: p in MatchesOf(l, right, noNuclear) <==>
      p.inRec == l && p.outRec in right && KeyEq(l, p.outRec, noNuclear)
    decreases |right|
  {
    if right != [] {
      MatchesOfSpec(l, right[..|right| - 1], noNuclear);
      assert right == right[..|right| - 1] + [right[|right| - 1]];
    }
  }

  /** The merge holds a pair exactly when its left record is a left row,
      its right record a right row, and their keys agree: rows without a
      partner on the other side are dropped. */
  lemma {:induction false} InnerMergeSpec(left: seq<Record>, right: seq<Record>, noNuclear: bool)
    ensures forall p :: p in InnerMerge(left, right, noNuclear) <==>
      p.inRec in left && p.outRec in right && KeyEq(p.inRec, p.outRec, noNuclear)
    decreases |left|
  {
    if left != [] {
      var l := left[|left| - 1];
      InnerMergeSpec(left[..|left| - 1], right, noNuclear);
      MatchesOfSpec(l, right, noNuclear);
      assert left == left[..|left| - 1] + [l];
    }
  }

  /** The pairs a right row o makes with the left rows, in left order. */
  function Column(left: seq<Record>, o: Record, noNuclear: bool): seq<Pair>
    decreases |left|
  {
    if left == [] then []
    else
      var l := left[|left| - 1];
      Column(left[..|left| - 1], o, noNuclear) + (if KeyEq(l, o, noNuclear) then [Pair(l, o)] else [])
  }

  /** Adding a right row adds its column to the merge. */
  lemma {:induction false} InnerMergeSnoc(left: seq<Record>, right: seq<Record>, o: Record, noNuclear: bool)
    ensures multiset(InnerMerge(left, right + [o], noNuclear)) ==
      multiset(InnerMerge(left, right, noNuclear)) + multiset(Column(left, o, noNuclear))
    decreases |left|
  {
    if left != [] {
      var left', l := left[..|left| - 1], left[|left| - 1];
      InnerMergeSnoc(left', right, o, noNuclear);
      assert (right + [o])[..|right|] == right;
    }
  }

  /** With one left row per key, the column of o is the first (and only)
      left row of o's key paired with o, or nothing. */
  lemma {:induction false} ColumnOfDistinct(left: seq<Record>, o: Record, noNuclear: bool)
    requires KeysDistinct(left, noNuclear)
    ensures Column(left, o, noNuclear) ==
      match FirstMatch(left, o, noNuclear)
      case Some(i) => [Pair(left[i], o)]
      case None => []
    decreases |left|
  {
    if left != [] {
      var left', l := left[..|left| - 1], left[|left| - 1];
      assert KeysDistinct(left', noNuclear);
      ColumnOfDistinct(left', o, noNuclear);
      FirstMatchSnoc(left', l, o, noNuclear);
      assert left == left' + [l];
      var c' := Column(left', o, noNuclear);
      if HasKey(left', o, noNuclear) {
        var i := FirstMatch(left', o, noNuclear).value;
        assert !KeyEq(l, o, noNuclear) by {
          assert KeyOf(left[i], noNuclear) != KeyOf(left[|left| - 1], noNuclear);
        }
        assert Column(left, o, noNuclear) == c' + [] == c';
        assert left[i] == left'[i];
      } else if KeyEq(l, o, noNuclear) {
        assert Column(left, o, noNuclear) == [] + [Pair(l, o)];
      } else {
        assert Column(left, o, noNuclear) == [] + [];
      }
    }
  }

  /** On a left side with one row per key, the merge and the join hold the
      same pairs, as many times each. */
  lemma {:induction false} InnerMergeIsJoin(left: seq<Record>, right: seq<Record>, noNuclear: bool)
    requires KeysDistinct(left, noNuclear)
    ensures multiset(InnerMerge(left, right, noNuclear)) == multiset(OutOrderJoin(left, right, noNuclear))
    decreases |right|
  {
    if right == [] {
      InnerMergeEmptyRight(left, noNuclear);
    } else {
      var right', o := right[..|right| - 1], right[|right| - 1];
      InnerMergeIsJoin(left, right', noNuclear);
      InnerMergeSnoc(left, right', o, noNuclear);
      ColumnOfDistinct(left, o, noNuclear);
      assert right == right' + [o];
    }
  }

  lemma {:induction false} InnerMergeEmptyRight(left: seq<Record>, noNuclear: bool)
    ensures InnerMerge(left, [], noNuclear) == []
    decreases |left|
  {
    if left != [] {
      InnerMergeEmptyRight(left[..|left| - 1], noNuclear);
    }
  }

  /** The join's result depends on the in-records present, not on their
      order, when there is one in-record per key. */
  lemma {:induction false} JoinIgnoresInOrder(a: seq<Record>, b: seq<Record>, psOut: seq<Record>, noNuclear: bool)
    requires KeysDistinct(a, noNuclear) && KeysDistinct(b, noNuclear) && multiset(a) == multiset(b)
    ensures OutOrderJoin(a, psOut, noNuclear) == OutOrderJoin(b, psOut, noNuclear)
    decreases |psOut|
  {
    if psOut != [] {
      var o := psOut[|psOut| - 1];
      JoinIgnoresInOrder(a, b, psOut[..|psOut| - 1], noNuclear);
      SameMembersSameKeys(a, b, o, noNuclear);
      if HasKey(a, o, noNuclear) {
        var i, m := FirstMatch(a, o, noNuclear).value, FirstMatch(b, o, noNuclear).value;
        assert a[i] in multiset(b);
        var m' :| 0 <= m' < |b| && b[m'] == a[i];
        assert KeyOf(b[m'], noNuclear) == KeyOf(b[m], noNuclear);
        assert m' == m;
      }
    }
  }

  /** The two scripts pair the same protons. Whatever the order of the
      in-stream, the join of pctpairprotons_numpy.py over the
      np.unique-deduplicated in-stream, which equals join_phase_spaces on a
      sorted out-stream, holds the same pairs, as many times each, as the
      inner merge of pctpairprotons.py over the drop_duplicates-deduplicated
      in-stream. */
  lemma ScriptsPairAlike(psIn: seq<Record>, psOut: seq<Record>, noNuclear: bool)
    ensures multiset(OutOrderJoin(Unique(psIn, noNuclear), psOut, noNuclear)) ==
      multiset(InnerMerge(DropDuplicates(psIn, noNuclear), psOut, noNuclear))
  {
    var u, d := Unique(psIn, noNuclear), DropDuplicates(psIn, noNuclear);
    UniqueSpec(psIn, noNuclear);
    StrictlySortedIff(u, noNuclear);
    DropDuplicatesDistinct(psIn, noNuclear);
    SortByKeyPermutes(d, noNuclear);
    JoinIgnoresInOrder(u, d, psOut, noNuclear);
    InnerMergeIsJoin(d, psOut, noNuclear);
  }
}
