/** The columns of the paired table built by `join_phase_spaces`
    (pctpairprotons_numpy.py): the key columns once, then every other
    column of the in-stream suffixed `_in`, then every other column of the
    out-stream suffixed `_out`; and the row it builds for one pair, whose
    key values are read from the in-record. */
module Columns {
  import opened Records

  /** The columns a loaded stream can have, after the renaming of the
      position and direction axes to u, v, w and du, dv, dw. */
  const FieldNames: seq<string> :=
    ["RunID", "EventID", "TrackID", "KineticEnergy", "GlobalTime", "u", "v", "w", "du", "dv", "dw"]

  /** The value of column `name` of x. */
  function Field(x: Record, name: string): Option<int> {
    if name == "RunID" then Some(x.runId)
    else if name == "EventID" then Some(x.eventId)
    else if name == "TrackID" then Some(x.trackId)
    else if name == "KineticEnergy" then Some(x.kineticEnergy)
    else if name == "GlobalTime" then Some(x.globalTime)
    else if name == "u" then Some(x.u)
    else if name == "v" then Some(x.v)
    else if name == "w" then Some(x.w)
    else if name == "du" then Some(x.du)
    else if name == "dv" then Some(x.dv)
    else if name == "dw" then Some(x.dw)
    else None
  }

  /** `merge_columns`: RunID and EventID, and TrackID when nuclear
      interactions are excluded. */
  function MergeColumns(noNuclear: bool): seq<string> {
    ["RunID", "EventID"] + (if noNuclear then ["TrackID"] else [])
  }

  /** `np.delete(names, np.argwhere(np.isin(names, merge)))`: the names
      that are not key columns, in their order. */
  function NonKey(names: seq<string>, merge: seq<string>): seq<string>
    decreases |names|
  {
    if names == [] then []
    else
      var t := names[|names| - 1];
      NonKey(names[..|names| - 1], merge) + (if t in merge then [] else [t])
  }

  /** Every name with the suffix appended. */
  function Suffixed(names: seq<string>, suffix: string): (r: seq<string>)
    ensures |r| == |names|
    ensures forall k :: 0 <= k < |names| ==> r[k] == names[k] + suffix
  {
    seq(|names|, k requires 0 <= k < |names| => names[k] + suffix)
  }

  /** `pairs_names`. */
  function PairColumns(inNames: seq<string>, outNames: seq<string>, noNuclear: bool): seq<string> {
    var merge := MergeColumns(noNuclear);
    merge + Suffixed(NonKey(inNames, merge), "_in") + Suffixed(NonKey(outNames, merge), "_out")
  }

  /** The values of the given columns of x. */
  function Values(x: Record, names: seq<string>): (r: seq<Option<int>>)
    ensures |r| == |names|
    ensures forall k :: 0 <= k < |names| ==> r[k] == Field(x, names[k])
  {
    seq(|names|, k requires 0 <= k < |names| => Field(x, names[k]))
  }

  /** The row `join_phase_spaces` appends for one match (lines 53-57). */
  function PairRow(inRec: Record, outRec: Record, inNames: seq<string>, outNames: seq<string>, noNuclear: bool): seq<Option<int>> {
    var merge := MergeColumns(noNuclear);
    Values(inRec, merge) + Values(inRec, NonKey(inNames, merge)) + Values(outRec, NonKey(outNames, merge))
  }

  predicate EndsWith(s: string, suffix: string) {
    |s| >= |suffix| && s[|s| - |suffix|..] == suffix
  }

  /** What a reader of the paired table finds under column `name`: for a
      name ending in `_in` the in-record's column without the suffix, for
      one ending in `_out` the out-record's, and otherwise (a key column)
      the in-record's column of that name. */
  function ColumnValue(inRec: Record, outRec: Record, name: string): Option<int> {
    if EndsWith(name, "_in") then Field(inRec, name[..|name| - 3])
    else if EndsWith(name, "_out") then Field(outRec, name[..|name| - 4])
    else Field(inRec, name)
  }

  /** The non-key names are exactly the names that are not key columns,
      in their original order. */
  lemma {:induction false} NonKeySpec(names: seq<string>, merge: seq<string>)
    ensures forall t :: t in NonKey(names, merge) <==> t in names && t !in merge
    ensures Subsequence(NonKey(names, merge), names)
    decreases |names|
  {
    if names != [] {
      var names', t := names[..|names| - 1], names[|names| - 1];
      var r' := NonKey(names', merge);
      NonKeySpec(names', merge);
      assert names == names' + [t];
      if t in merge {
        assert r' + [] == r';
        SubsequenceExtendRight(r', names', t);
      } else {
        SubsequenceAppendBoth(r', names', t);
      }
    }
  }

  /** No column of a loaded stream carries a suffix of the paired table. */
  lemma FieldNamesUnsuffixed(t: string)
    requires t in FieldNames
    ensures !EndsWith(t, "_in") && !EndsWith(t, "_out")
  {
    assert |t| > 0 && t[|t| - 1] in "DyeuvwT" by {
      if t == "RunID" {} else if t == "EventID" {} else if t == "TrackID" {}
      else if t == "KineticEnergy" {} else if t == "GlobalTime" {}
      else if t == "u" {} else if t == "v" {} else if t == "w" {}
      else if t == "du" {} else if t == "dv" {} else {}
    }
  }

  /** Appending a suffix and stripping it again gives the name back. */
  lemma StripSuffix(t: string, suffix: string)
    ensures EndsWith(t + suffix, suffix)
    ensures (t + suffix)[..|t|] == t
  {
    assert (t + suffix)[|t + suffix| - |suffix|..] == suffix;
  }

  /** The table's layout (lines 13-24): the key columns come first, the
      join key has TrackID exactly when nuclear interactions are excluded,
      and a name follows with suffix `_in` (`_out`) exactly when it is a
      non-key column of the in-stream (out-stream). */
  lemma PairColumnsLayout(inNames: seq<string>, outNames: seq<string>, noNuclear: bool)
    requires forall t :: t in inNames ==> t in FieldNames
    requires forall t :: t in outNames ==> t in FieldNames
    ensures PairColumns(inNames, outNames, noNuclear)[..|MergeColumns(noNuclear)|] == MergeColumns(noNuclear)
    ensures "TrackID" in MergeColumns(noNuclear) <==> noNuclear
    ensures forall t :: t in FieldNames ==>
      ((t + "_in" in PairColumns(inNames, outNames, noNuclear)) <==> t in inNames && t !in MergeColumns(noNuclear))
    ensures forall t :: t in FieldNames ==>
      ((t + "_out" in PairColumns(inNames, outNames, noNuclear)) <==> t in outNames && t !in MergeColumns(noNuclear))
  {
    forall t | t in FieldNames
      ensures (t + "_in" in PairColumns(inNames, outNames, noNuclear)) <==> t in inNames && t !in MergeColumns(noNuclear)
      ensures (t + "_out" in PairColumns(inNames, outNames, noNuclear)) <==> t in outNames && t !in MergeColumns(noNuclear)
    {
      InColumn(inNames, outNames, noNuclear, t);
      OutColumn(inNames, outNames, noNuclear, t);
    }
  }

  lemma InColumn(inNames: seq<string>, outNames: seq<string>, noNuclear: bool, t: string)
    requires forall t :: t in inNames ==> t in FieldNames
    requires forall t :: t in outNames ==> t in FieldNames
    ensures (t + "_in" in PairColumns(inNames, outNames, noNuclear)) <==> t in inNames && t !in MergeColumns(noNuclear)
  {
    var merge := MergeColumns(noNuclear);
    var ins, outs := NonKey(inNames, merge), NonKey(outNames, merge);
    var cols := PairColumns(inNames, outNames, noNuclear);
    NonKeySpec(inNames, merge);
    assert cols == merge + Suffixed(ins, "_in") + Suffixed(outs, "_out");
    if t + "_in" in cols {
      var c :| 0 <= c < |cols| && cols[c] == t + "_in";
      ColumnShape(ins, outs, merge, c, noNuclear);
      StripSuffix(t, "_in");
      if c < |merge| {
        FieldNamesUnsuffixed(cols[c]);
      } else if c < |merge| + |ins| {
        SuffixedInjective(ins[c - |merge|], t, "_in");
      } else {
        SuffixesDiffer(t, outs[c - |merge| - |ins|]);
      }
    }
    if t in inNames && t !in merge {
      var k :| 0 <= k < |ins| && ins[k] == t;
      assert cols[|merge| + k] == t + "_in";
    }
  }

  lemma OutColumn(inNames: seq<string>, outNames: seq<string>, noNuclear: bool, t: string)
    requires forall t :: t in inNames ==> t in FieldNames
    requires forall t :: t in outNames ==> t in FieldNames
    ensures (t + "_out" in PairColumns(inNames, outNames, noNuclear)) <==> t in outNames && t !in MergeColumns(noNuclear)
  {
    var merge := MergeColumns(noNuclear);
    var ins, outs := NonKey(inNames, merge), NonKey(outNames, merge);
    var cols := PairColumns(inNames, outNames, noNuclear);
    NonKeySpec(outNames, merge);
    assert cols == merge + Suffixed(ins, "_in") + Suffixed(outs, "_out");
    if t + "_out" in cols {
      var c :| 0 <= c < |cols| && cols[c] == t + "_out";
      ColumnShape(ins, outs, merge, c, noNuclear);
      StripSuffix(t, "_out");
      if c < |merge| {
        FieldNamesUnsuffixed(cols[c]);
      } else if c < |merge| + |ins| {
        SuffixesDiffer(ins[c - |merge|], t);
      } else {
        SuffixedInjective(outs[c - |merge| - |ins|], t, "_out");
      }
    }
    if t in outNames && t !in merge {
      var k :| 0 <= k < |outs| && outs[k] == t;
      assert cols[|merge| + |ins| + k] == t + "_out";
    }
  }

  /** Where column c of the paired table comes from. */
  lemma ColumnShape(ins: seq<string>, outs: seq<string>, merge: seq<string>, c: nat, noNuclear: bool)
    requires merge == MergeColumns(noNuclear)
    requires c < |merge| + |ins| + |outs|
    ensures var cols := merge + Suffixed(ins, "_in") + Suffixed(outs, "_out");
      && (c < |merge| ==> cols[c] == merge[c] && cols[c] in FieldNames)
      && (|merge| <= c < |merge| + |ins| ==> cols[c] == ins[c - |merge|] + "_in")
      && (|merge| + |ins| <= c ==> cols[c] == outs[c - |merge| - |ins|] + "_out")
  {
  }

  /** An `_in` column never has the name of an `_out` column. */
  lemma SuffixesDiffer(s: string, t: string)
    ensures s + "_in" != t + "_out"
  {
    assert (s + "_in")[|s + "_in"| - 1] == 'n';
    assert (t + "_out")[|t + "_out"| - 1] == 't';
  }

  lemma SuffixedInjective(s: string, t: string, suffix: string)
    requires s + suffix == t + suffix
    ensures s == t
  {
    assert |s| == |t|;
    assert forall k :: 0 <= k < |s| ==> s[k] == (s + suffix)[k] == (t + suffix)[k] == t[k];
  }

  /** The row of a match agrees with the table's column names (lines 20-24
      and 53-57): under every column a reader finds the value its name
      announces, the key columns holding the in-record's values. */
  lemma PairRowReadsByName(inRec: Record, outRec: Record, inNames: seq<string>, outNames: seq<string>, noNuclear: bool)
    requires forall t :: t in inNames ==> t in FieldNames
    requires forall t :: t in outNames ==> t in FieldNames
    ensures |PairRow(inRec, outRec, inNames, outNames, noNuclear)| == |PairColumns(inNames, outNames, noNuclear)|
    ensures forall c :: 0 <= c < |PairColumns(inNames, outNames, noNuclear)| ==>
      PairRow(inRec, outRec, inNames, outNames, noNuclear)[c] ==
        ColumnValue(inRec, outRec, PairColumns(inNames, outNames, noNuclear)[c])
  {
    var merge := MergeColumns(noNuclear);
    var ins, outs := NonKey(inNames, merge), NonKey(outNames, merge);
    var cols := PairColumns(inNames, outNames, noNuclear);
    var row := PairRow(inRec, outRec, inNames, outNames, noNuclear);
    NonKeySpec(inNames, merge);
    NonKeySpec(outNames, merge);
    assert cols == merge + Suffixed(ins, "_in") + Suffixed(outs, "_out");
    forall c | 0 <= c < |cols| ensures row[c] == ColumnValue(inRec, outRec, cols[c]) {
      ColumnShape(ins, outs, merge, c, noNuclear);
      if c < |merge| {
        FieldNamesUnsuffixed(cols[c]);
      } else if c < |merge| + |ins| {
        var t := ins[c - |merge|];
        StripSuffix(t, "_in");
      } else {
        var t := outs[c - |merge| - |ins|];
        StripSuffix(t, "_out");
        assert (t + "_out")[|t + "_out"| - 1] == 't';
      }
    }
  }
}
