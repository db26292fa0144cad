/** Phase-space records, the join key and its lexicographic order.

    A record is one particle crossing one measurement plane, as the loader
    hands it on: the position and direction axes are already renamed to
    (u, v, w) and (du, dv, dw). Payload values are integers here; the
    scripts hold them as floats. */
module Records {

  datatype Option<T> = None | Some(value: T)

  datatype Record = Record(
    runId: int,
    eventId: int,
    trackId: int,
    kineticEnergy: int,
    globalTime: int,
    u: int, v: int, w: int,
    du: int, dv: int, dw: int)

  /** One paired row: an in-record and the out-record it was matched with.
      The key columns of the row (RunID, EventID and, when nuclear
      interactions are excluded, TrackID) are read from the in-record. */
  datatype Pair = Pair(inRec: Record, outRec: Record) {
    function RunId(): int { inRec.runId }
  }

  /** The value of a join key. When nuclear interactions are not excluded
      the key is (RunID, EventID) and its track component is held at 0, so
      that it never tells two records apart. */
  datatype JoinKey = JoinKey(runId: int, eventId: int, trackId: int)

  /** The join key of x: (RunID, EventID), extended with TrackID exactly
      when nuclear interactions are excluded. */
  function KeyOf(x: Record, noNuclear: bool): JoinKey {
    JoinKey(x.runId, x.eventId, if noNuclear then x.trackId else 0)
  }

  /** Strict lexicographic order on join keys: run, then event, then track. */
  predicate Before(a: JoinKey, b: JoinKey) {
    || a.runId < b.runId
    || (a.runId == b.runId && a.eventId < b.eventId)
    || (a.runId == b.runId && a.eventId == b.eventId && a.trackId < b.trackId)
  }

  /** a and b share their join key. */
  predicate KeyEq(a: Record, b: Record, noNuclear: bool) {
    KeyOf(a, noNuclear) == KeyOf(b, noNuclear)
  }

  /** a's join key is strictly smaller than b's. */
  predicate KeyLt(a: Record, b: Record, noNuclear: bool) {
    Before(KeyOf(a, noNuclear), KeyOf(b, noNuclear))
  }

  /** Non-decreasing by the join key: what the loader guarantees. */
  predicate Sorted(s: seq<Record>, noNuclear: bool) {
    forall i, j :: 0 <= i < j < |s| ==> !KeyLt(s[j], s[i], noNuclear)
  }

  /** Strictly ascending by the join key: one record per key. */
  predicate StrictlySorted(s: seq<Record>, noNuclear: bool) {
    forall i, j :: 0 <= i < j < |s| ==> KeyLt(s[i], s[j], noNuclear)
  }

  /** The join keys of s, in order. */
  function Keys(s: seq<Record>, noNuclear: bool): (r: seq<JoinKey>)
    ensures |r| == |s|
    ensures forall k :: 0 <= k < |s| ==> r[k] == KeyOf(s[k], noNuclear)
  {
    seq(|s|, k requires 0 <= k < |s| => KeyOf(s[k], noNuclear))
  }

  /** Some record of s has the same join key as x. */
  predicate HasKey(s: seq<Record>, x: Record, noNuclear: bool) {
    KeyOf(x, noNuclear) in Keys(s, noNuclear)
  }

  /** No two records of s share a join key. */
  predicate KeysDistinct(s: seq<Record>, noNuclear: bool) {
    forall i, j :: 0 <= i < j < |s| ==> KeyOf(s[i], noNuclear) != KeyOf(s[j], noNuclear)
  }

  /** Appending a record appends its key. */
  lemma KeysSnoc(s: seq<Record>, x: Record, noNuclear: bool)
    ensures Keys(s + [x], noNuclear) == Keys(s, noNuclear) + [KeyOf(x, noNuclear)]
  {
  }

  /** A stream with strictly ascending keys has distinct keys, and a stream
      that is sorted and has distinct keys is strictly ascending. */
  lemma StrictlySortedIff(s: seq<Record>, noNuclear: bool)
    ensures StrictlySorted(s, noNuclear) <==> Sorted(s, noNuclear) && KeysDistinct(s, noNuclear)
  {
  }

  /** The index of the first record of s with x's join key, if there is
      one: the record a cursor that only moves forward stops at. */
  function FirstMatch(s: seq<Record>, x: Record, noNuclear: bool): (r: Option<nat>)
    ensures r.Some? ==> r.value < |s| && KeyEq(s[r.value], x, noNuclear)
    ensures r.Some? ==> forall k :: 0 <= k < r.value ==> !KeyEq(s[k], x, noNuclear)
    ensures r.None? <==> !HasKey(s, x, noNuclear)
    decreases |s|
  {
    if s == [] then None
    else
      var s', y := s[..|s| - 1], s[|s| - 1];
      assert Keys(s, noNuclear) == Keys(s', noNuclear) + [KeyOf(y, noNuclear)];
      match FirstMatch(s', x, noNuclear)
      case Some(i) => Some(i)
      case None => if KeyEq(y, x, noNuclear) then Some(|s| - 1) else None
  }

  /** The out-records of a sequence of pairs, in order. */
  function Outs(pairs: seq<Pair>): (r: seq<Record>)
    ensures |r| == |pairs|
    ensures forall k :: 0 <= k < |pairs| ==> r[k] == pairs[k].outRec
  {
    seq(|pairs|, k requires 0 <= k < |pairs| => pairs[k].outRec)
  }

  /** a is obtained from b by deleting elements: the elements of a occur
      in b in the same order, each element of b used at most once. */
  predicate Subsequence<T(==)>(a: seq<T>, b: seq<T>)
    decreases |b|
  {
    if a == [] then true
    else if b == [] then false
    else if a[|a| - 1] == b[|b| - 1] then Subsequence(a[..|a| - 1], b[..|b| - 1])
    else Subsequence(a, b[..|b| - 1])
  }

  lemma {:induction false} SubsequenceExtendRight<T>(a: seq<T>, b: seq<T>, x: T)
    requires Subsequence(a, b)
    ensures Subsequence(a, b + [x])
    decreases |b|, 1
  {
    var b' := b + [x];
    assert b'[..|b'| - 1] == b;
    if a != [] && a[|a| - 1] == x {
      SubsequenceDropLast(a, b);
    }
  }

  lemma {:induction false} SubsequenceDropLast<T>(a: seq<T>, b: seq<T>)
    requires a != [] && Subsequence(a, b)
    ensures Subsequence(a[..|a| - 1], b)
    decreases |b|, 0
  {
    var a', b' := a[..|a| - 1], b[..|b| - 1];
    if a[|a| - 1] == b[|b| - 1] {
      SubsequenceExtendRight(a', b', b[|b| - 1]);
    } else {
      SubsequenceDropLast(a, b');
      SubsequenceExtendRight(a', b', b[|b| - 1]);
    }
    assert b' + [b[|b| - 1]] == b;
  }

  lemma {:induction false} SubsequenceAppendBoth<T>(a: seq<T>, b: seq<T>, x: T)
    requires Subsequence(a, b)
    ensures Subsequence(a + [x], b + [x])
  {
    assert (a + [x])[..|a|] == a;
    assert (b + [x])[..|b|] == b;
  }

  lemma {:induction false} SubsequenceExtend<T>(a: seq<T>, b: seq<T>, c: seq<T>)
    requires Subsequence(a, b)
    ensures Subsequence(a, b + c)
    decreases |c|
  {
    if c != [] {
      var c' := c[..|c| - 1];
      SubsequenceExtend(a, b, c');
      SubsequenceExtendRight(a, b + c', c[|c| - 1]);
      assert b + c' + [c[|c| - 1]] == b + c;
    } else {
      assert b + c == b;
    }
  }

  lemma {:induction false} SubsequenceReflexive<T>(a: seq<T>)
    ensures Subsequence(a, a)
    decreases |a|
  {
    if a != [] {
      SubsequenceReflexive(a[..|a| - 1]);
    }
  }

  /** Every element of a subsequence is an element of the sequence, and the
      subsequence is no longer. */
  lemma {:induction false} SubsequenceMembers<T>(a: seq<T>, b: seq<T>)
    requires Subsequence(a, b)
    ensures |a| <= |b|
    ensures forall y :: y in a ==> y in b
    decreases |b|
  {
    if a != [] {
      var a', b' := a[..|a| - 1], b[..|b| - 1];
      if a[|a| - 1] == b[|b| - 1] {
        SubsequenceMembers(a', b');
        assert a == a' + [a[|a| - 1]];
        assert b == b' + [b[|b| - 1]];
      } else {
        SubsequenceMembers(a, b');
        assert b == b' + [b[|b| - 1]];
      }
    }
  }

  /** A subsequence of a sorted sequence is sorted. */
  lemma {:induction false} SubsequenceSorted(a: seq<Record>, b: seq<Record>, noNuclear: bool)
    requires Subsequence(a, b) && Sorted(b, noNuclear)
    ensures Sorted(a, noNuclear)
    decreases |b|
  {
    if a != [] {
      var a', b' := a[..|a| - 1], b[..|b| - 1];
      var x, y := a[|a| - 1], b[|b| - 1];
      assert Sorted(b', noNuclear);
      if x == y {
        SubsequenceSorted(a', b', noNuclear);
        SubsequenceMembers(a', b');
        forall i, j | 0 <= i < j < |a| ensures !KeyLt(a[j], a[i], noNuclear) {
          if j == |a| - 1 {
            assert a[i] == a'[i] && a'[i] in b';
            var m :| 0 <= m < |b'| && b'[m] == a'[i];
            assert b[m] == a[i] && b[|b| - 1] == a[j];
          } else {
            assert a[i] == a'[i] && a[j] == a'[j];
          }
        }
      } else {
        SubsequenceSorted(a, b', noNuclear);
      }
    }
  }
}
