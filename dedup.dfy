/** The two ways the scripts collapse the in-stream to one record per key.

    - `drop_duplicates(['RunID', 'EventID'])` (pctpairprotons.py): the first
      occurrence of every key, in the original relative order. It is
      modelled by DropDuplicates.
    - `np.unique(ps_in[merge_columns], return_index=True)` followed by
      `ps_in[unique_index]` (pctpairprotons_numpy.py): the first occurrence
      of every key, returned in ascending key order. The index returned for
      a key is that of its first occurrence because the sort behind it is
      stable; Unique is therefore DropDuplicates followed by a stable sort
      on the key.

    On a stream that is sorted by the key the two coincide. */
module Dedup {
  import opened Records

  /** The model of `drop_duplicates(keys)` with its default keep='first':
      each record whose key does not occur earlier is kept, in order. */
  function DropDuplicates(s: seq<Record>, noNuclear: bool): seq<Record>
    decreases |s|
  {
    if s == [] then []
    else
      var s', x := s[..|s| - 1], s[|s| - 1];
      DropDuplicates(s', noNuclear) + (if HasKey(s', x, noNuclear) then [] else [x])
  }

  /** y is the first record of s that carries y's key. */
  predicate IsFirstOccurrence(s: seq<Record>, y: Record, noNuclear: bool) {
    match FirstMatch(s, y, noNuclear)
    case Some(i) => s[i] == y
    case None => false
  }

  /** How FirstMatch sees a record appended at the end. */
  lemma FirstMatchSnoc(s: seq<Record>, x: Record, y: Record, noNuclear: bool)
    ensures FirstMatch(s + [x], y, noNuclear) ==
      if HasKey(s, y, noNuclear) then FirstMatch(s, y, noNuclear)
      else if KeyEq(x, y, noNuclear) then Some(|s|) else None
  {
    assert (s + [x])[..|s|] == s;
  }

  /** drop_duplicates keeps exactly the first occurrence of every key. */
  lemma {:induction false} DropDuplicatesKeepsFirst(s: seq<Record>, noNuclear: bool)
    ensures forall y :: y in DropDuplicates(s, noNuclear) <==> IsFirstOccurrence(s, y, noNuclear)
    decreases |s|
  {
    if s != [] {
      var s', x := s[..|s| - 1], s[|s| - 1];
      assert s == s' + [x];
      DropDuplicatesKeepsFirst(s', noNuclear);
      forall y
        ensures y in DropDuplicates(s, noNuclear) <==> IsFirstOccurrence(s, y, noNuclear)
      {
        FirstMatchSnoc(s', x, y, noNuclear);
        if HasKey(s', y, noNuclear) {
          var i := FirstMatch(s', y, noNuclear).value;
          assert s[i] == s'[i];
          if y == x {
            assert HasKey(s', x, noNuclear);
          }
        } else {
          assert !IsFirstOccurrence(s', y, noNuclear);
          if y == x {
            assert s[|s'|] == x;
          }
        }
      }
    }
  }

  /** A key occurs after drop_duplicates exactly when it occurs before. */
  lemma {:induction false} DropDuplicatesKeys(s: seq<Record>, noNuclear: bool)
    ensures forall y :: HasKey(DropDuplicates(s, noNuclear), y, noNuclear) <==> HasKey(s, y, noNuclear)
    decreases |s|
  {
    if s != [] {
      var s', x := s[..|s| - 1], s[|s| - 1];
      var d', d := DropDuplicates(s', noNuclear), DropDuplicates(s, noNuclear);
      DropDuplicatesKeys(s', noNuclear);
      assert s == s' + [x];
      KeysSnoc(s', x, noNuclear);
      forall y ensures HasKey(d, y, noNuclear) <==> HasKey(s, y, noNuclear) {
        assert HasKey(d', y, noNuclear) <==> HasKey(s', y, noNuclear);
        assert HasKey(s, y, noNuclear) <==> HasKey(s', y, noNuclear) || KeyEq(x, y, noNuclear);
        if HasKey(s', x, noNuclear) {
          assert d == d' + [] == d';
          assert KeyEq(x, y, noNuclear) ==> HasKey(s', y, noNuclear);
        } else {
          assert d == d' + [x];
          KeysSnoc(d', x, noNuclear);
          assert HasKey(d, y, noNuclear) <==> HasKey(d', y, noNuclear) || KeyEq(x, y, noNuclear);
        }
      }
    }
  }

  /** drop_duplicates leaves one record per key. */
  lemma {:induction false} DropDuplicatesDistinct(s: seq<Record>, noNuclear: bool)
    ensures KeysDistinct(DropDuplicates(s, noNuclear), noNuclear)
    decreases |s|
  {
    if s != [] {
      var s', x := s[..|s| - 1], s[|s| - 1];
      var d' := DropDuplicates(s', noNuclear);
      DropDuplicatesDistinct(s', noNuclear);
      if !HasKey(s', x, noNuclear) {
        DropDuplicatesKeys(s', noNuclear);
        var d := d' + [x];
        forall i | 0 <= i < |d'| ensures KeyOf(d[i], noNuclear) != KeyOf(x, noNuclear) {
          assert Keys(d', noNuclear)[i] == KeyOf(d[i], noNuclear);
        }
      } else {
        assert d' + [] == d';
      }
    }
  }

  /** Every record of d occurs in s, and d lists them in the order in which
      their keys first occur in s. */
  predicate InFirstOccurrenceOrder(s: seq<Record>, d: seq<Record>, noNuclear: bool) {
    forall i, j :: 0 <= i < j < |d| ==>
      FirstMatch(s, d[i], noNuclear).Some? && FirstMatch(s, d[j], noNuclear).Some? &&
      FirstMatch(s, d[i], noNuclear).value < FirstMatch(s, d[j], noNuclear).value
  }

  /** drop_duplicates lists the survivors in the order in which their keys
      first occur in the input. */
  lemma {:induction false} DropDuplicatesFirstOccurrenceOrder(s: seq<Record>, noNuclear: bool)
    ensures InFirstOccurrenceOrder(s, DropDuplicates(s, noNuclear), noNuclear)
    decreases |s|
  {
    if s != [] {
      var s', x := s[..|s| - 1], s[|s| - 1];
      var d', d := DropDuplicates(s', noNuclear), DropDuplicates(s, noNuclear);
      DropDuplicatesFirstOccurrenceOrder(s', noNuclear);
      DropDuplicatesKeys(s', noNuclear);
      forall k | 0 <= k < |d'| ensures FirstMatch(s, d'[k], noNuclear) == FirstMatch(s', d'[k], noNuclear) {
        assert Keys(d', noNuclear)[k] == KeyOf(d'[k], noNuclear);
        FirstMatchSnoc(s', x, d'[k], noNuclear);
      }
      if HasKey(s', x, noNuclear) {
        assert d == d' + [] == d';
      } else {
        FirstMatchSnoc(s', x, x, noNuclear);
        assert d == d' + [x];
      }
    }
  }

  /** drop_duplicates keeps the survivors in their original relative order:
      they form a subsequence of the input, ordered by where their keys
      first occur. */
  lemma {:induction false} DropDuplicatesOrder(s: seq<Record>, noNuclear: bool)
    ensures Subsequence(DropDuplicates(s, noNuclear), s)
    ensures InFirstOccurrenceOrder(s, DropDuplicates(s, noNuclear), noNuclear)
    decreases |s|
  {
    DropDuplicatesFirstOccurrenceOrder(s, noNuclear);
    if s != [] {
      var s', x := s[..|s| - 1], s[|s| - 1];
      var d' := DropDuplicates(s', noNuclear);
      DropDuplicatesOrder(s', noNuclear);
      assert s == s' + [x];
      if HasKey(s', x, noNuclear) {
        assert d' + [] == d';
        SubsequenceExtendRight(d', s', x);
      } else {
        SubsequenceAppendBoth(d', s', x);
      }
    }
  }

  /** drop_duplicates leaves a stream with distinct keys as it is. */
  lemma {:induction false} DropDuplicatesOfDistinct(t: seq<Record>, noNuclear: bool)
    requires KeysDistinct(t, noNuclear)
    ensures DropDuplicates(t, noNuclear) == t
    decreases |t|
  {
    if t != [] {
      var t', x := t[..|t| - 1], t[|t| - 1];
      DropDuplicatesOfDistinct(t', noNuclear);
      assert !HasKey(t', x, noNuclear) by {
        forall i | 0 <= i < |t'| ensures Keys(t', noNuclear)[i] != KeyOf(x, noNuclear) {
          assert t'[i] == t[i];
        }
      }
      assert t == t' + [x];
    }
  }

  /** Applying drop_duplicates twice is applying it once. */
  lemma DropDuplicatesIdempotent(s: seq<Record>, noNuclear: bool)
    ensures DropDuplicates(DropDuplicates(s, noNuclear), noNuclear) == DropDuplicates(s, noNuclear)
  {
    DropDuplicatesDistinct(s, noNuclear);
    DropDuplicatesOfDistinct(DropDuplicates(s, noNuclear), noNuclear);
  }

  /** x placed after every record whose key is not greater than its own. */
  function InsertByKey(acc: seq<Record>, x: Record, noNuclear: bool): seq<Record>
    decreases |acc|
  {
    if acc == [] then [x]
    else if KeyLt(x, acc[0], noNuclear) then [x] + acc
    else [acc[0]] + InsertByKey(acc[1..], x, noNuclear)
  }

  /** A stable insertion sort on the join key. */
  function SortByKey(s: seq<Record>, noNuclear: bool): seq<Record>
    decreases |s|
  {
    if s == [] then [] else InsertByKey(SortByKey(s[..|s| - 1], noNuclear), s[|s| - 1], noNuclear)
  }

  lemma {:induction false} InsertByKeyPermutes(acc: seq<Record>, x: Record, noNuclear: bool)
    ensures multiset(InsertByKey(acc, x, noNuclear)) == multiset(acc) + multiset{x}
    decreases |acc|
  {
    if acc != [] && !KeyLt(x, acc[0], noNuclear) {
      InsertByKeyPermutes(acc[1..], x, noNuclear);
      assert acc == [acc[0]] + acc[1..];
    }
  }

  /** Inserting a record whose key is new into a strictly ascending stream
      keeps it strictly ascending. */
  lemma {:induction false} InsertByKeyStrictlySorted(acc: seq<Record>, x: Record, noNuclear: bool)
    requires StrictlySorted(acc, noNuclear) && !HasKey(acc, x, noNuclear)
    ensures StrictlySorted(InsertByKey(acc, x, noNuclear), noNuclear)
    decreases |acc|
  {
    if acc != [] && !KeyLt(x, acc[0], noNuclear) {
      var rest := acc[1..];
      assert Keys(acc, noNuclear)[0] == KeyOf(acc[0], noNuclear);
      assert !HasKey(rest, x, noNuclear) by {
        forall i | 0 <= i < |rest| ensures Keys(rest, noNuclear)[i] != KeyOf(x, noNuclear) {
          assert Keys(acc, noNuclear)[i + 1] == Keys(rest, noNuclear)[i];
        }
      }
      InsertByKeyStrictlySorted(rest, x, noNuclear);
      InsertByKeyPermutes(rest, x, noNuclear);
      var ins := InsertByKey(rest, x, noNuclear);
      var r := [acc[0]] + ins;
      forall j | 0 < j < |r| ensures KeyLt(r[0], r[j], noNuclear) {
        assert r[j] == ins[j - 1];
        assert r[j] in multiset(ins);
        if r[j] != x {
          assert r[j] in multiset(rest);
          var m :| 0 <= m < |rest| && rest[m] == r[j];
          assert acc[m + 1] == r[j];
        }
      }
    }
  }

  /** A record whose key is not smaller than any key of acc goes last. */
  lemma {:induction false} InsertByKeyAtEnd(acc: seq<Record>, x: Record, noNuclear: bool)
    requires forall k :: 0 <= k < |acc| ==> !KeyLt(x, acc[k], noNuclear)
    ensures InsertByKey(acc, x, noNuclear) == acc + [x]
    decreases |acc|
  {
    if acc != [] {
      InsertByKeyAtEnd(acc[1..], x, noNuclear);
      assert acc == [acc[0]] + acc[1..];
    }
  }

  lemma {:induction false} SortByKeyPermutes(s: seq<Record>, noNuclear: bool)
    ensures multiset(SortByKey(s, noNuclear)) == multiset(s)
    decreases |s|
  {
    if s != [] {
      SortByKeyPermutes(s[..|s| - 1], noNuclear);
      InsertByKeyPermutes(SortByKey(s[..|s| - 1], noNuclear), s[|s| - 1], noNuclear);
      assert s == s[..|s| - 1] + [s[|s| - 1]];
    }
  }

  /** Two streams with the same records carry the same keys. */
  lemma SameMembersSameKeys(a: seq<Record>, b: seq<Record>, x: Record, noNuclear: bool)
    requires multiset(a) == multiset(b)
    ensures HasKey(a, x, noNuclear) <==> HasKey(b, x, noNuclear)
  {
    if HasKey(a, x, noNuclear) {
      var i :| 0 <= i < |a| && Keys(a, noNuclear)[i] == KeyOf(x, noNuclear);
      assert a[i] in multiset(b);
      var j :| 0 <= j < |b| && b[j] == a[i];
      assert Keys(b, noNuclear)[j] == KeyOf(x, noNuclear);
    }
    if HasKey(b, x, noNuclear) {
      var j :| 0 <= j < |b| && Keys(b, noNuclear)[j] == KeyOf(x, noNuclear);
      assert b[j] in multiset(a);
      var i :| 0 <= i < |a| && a[i] == b[j];
      assert Keys(a, noNuclear)[i] == KeyOf(x, noNuclear);
    }
  }

  /** Sorting a stream with distinct keys puts them strictly in ascending order. */
  lemma {:induction false} SortByKeyStrictlySorted(s: seq<Record>, noNuclear: bool)
    requires KeysDistinct(s, noNuclear)
    ensures StrictlySorted(SortByKey(s, noNuclear), noNuclear)
    decreases |s|
  {
    if s != [] {
      var s', x := s[..|s| - 1], s[|s| - 1];
      KeysDistinctPrefix(s, noNuclear);
      SortByKeyStrictlySorted(s', noNuclear);
      SortByKeyPermutes(s', noNuclear);
      assert !HasKey(s', x, noNuclear) by {
        forall i | 0 <= i < |s'| ensures Keys(s', noNuclear)[i] != KeyOf(x, noNuclear) {
          assert s'[i] == s[i];
        }
      }
      SameMembersSameKeys(SortByKey(s', noNuclear), s', x, noNuclear);
      InsertByKeyStrictlySorted(SortByKey(s', noNuclear), x, noNuclear);
    }
  }

  /** A prefix of a stream with distinct keys has distinct keys. */
  lemma KeysDistinctPrefix(s: seq<Record>, noNuclear: bool)
    requires s != [] && KeysDistinct(s, noNuclear)
    ensures KeysDistinct(s[..|s| - 1], noNuclear)
  {
  }

  /** Sorting a sorted stream changes nothing. */
  lemma {:induction false} SortByKeyOfSorted(s: seq<Record>, noNuclear: bool)
    requires Sorted(s, noNuclear)
    ensures SortByKey(s, noNuclear) == s
    decreases |s|
  {
    if s != [] {
      var s', x := s[..|s| - 1], s[|s| - 1];
      assert Sorted(s', noNuclear);
      SortByKeyOfSorted(s', noNuclear);
      InsertByKeyAtEnd(s', x, noNuclear);
      assert s == s' + [x];
    }
  }

  /** The model of `np.unique(ps_in[keys], return_index=True)` followed by
      `ps_in[unique_index]`: the first occurrence of each key, in ascending
      key order. */
  function Unique(s: seq<Record>, noNuclear: bool): seq<Record>
  {
    SortByKey(DropDuplicates(s, noNuclear), noNuclear)
  }

  /** The deduplicated stream is strictly ascending by key, holds the first
      occurrence of each key and nothing else, and loses no key. */
  lemma UniqueSpec(s: seq<Record>, noNuclear: bool)
    ensures StrictlySorted(Unique(s, noNuclear), noNuclear)
    ensures forall y :: y in Unique(s, noNuclear) <==> IsFirstOccurrence(s, y, noNuclear)
    ensures forall y :: HasKey(Unique(s, noNuclear), y, noNuclear) <==> HasKey(s, y, noNuclear)
  {
    var d := DropDuplicates(s, noNuclear);
    DropDuplicatesDistinct(s, noNuclear);
    DropDuplicatesKeepsFirst(s, noNuclear);
    DropDuplicatesKeys(s, noNuclear);
    SortByKeyStrictlySorted(d, noNuclear);
    SortByKeyPermutes(d, noNuclear);
    forall y ensures HasKey(Unique(s, noNuclear), y, noNuclear) <==> HasKey(s, y, noNuclear) {
      SameMembersSameKeys(Unique(s, noNuclear), d, y, noNuclear);
    }
    assert forall y :: y in Unique(s, noNuclear) <==> y in multiset(d);
  }

  /** Deduplicating twice is deduplicating once. */
  lemma UniqueIdempotent(s: seq<Record>, noNuclear: bool)
    ensures Unique(Unique(s, noNuclear), noNuclear) == Unique(s, noNuclear)
  {
    var u := Unique(s, noNuclear);
    UniqueSpec(s, noNuclear);
    StrictlySortedIff(u, noNuclear);
    DropDuplicatesOfDistinct(u, noNuclear);
    SortByKeyOfSorted(u, noNuclear);
  }

  /** On a stream sorted by the key, np.unique and drop_duplicates agree. */
  lemma UniqueIsDropDuplicatesWhenSorted(s: seq<Record>, noNuclear: bool)
    requires Sorted(s, noNuclear)
    ensures Unique(s, noNuclear) == DropDuplicates(s, noNuclear)
  {
    DropDuplicatesOrder(s, noNuclear);
    SubsequenceSorted(DropDuplicates(s, noNuclear), s, noNuclear);
    SortByKeyOfSorted(DropDuplicates(s, noNuclear), noNuclear);
  }
}
