/** The (n, 5, 3) array written for one run (pctpairprotons_numpy.py lines
    180-195, pctpairprotons.py lines 95-110): per pair, row 0 the entry
    position, row 1 the exit position, rows 2 and 3 the entry and exit
    directions, row 4 the entry and exit kinetic energies and a track id. */
module Layout {
  import opened Records
  import opened Columns
  import opened Loading

  /** The track id of row 4 (line 195 of pctpairprotons_numpy.py): the key
      column TrackID when it is part of the key, the exit record's
      otherwise. */
  function ExitTrack(p: Pair, noNuclear: bool): int {
    if noNuclear then p.inRec.trackId else p.outRec.trackId
  }

  /** The (5, 3) slice of one pair, the third direction component scaled
      by dwFactor. */
  function Features(p: Pair, dwFactor: int, noNuclear: bool): (f: seq<seq<int>>)
    ensures |f| == 5 && forall row :: 0 <= row < 5 ==> |f[row]| == 3
  {
    var i, o := p.inRec, p.outRec;
    [ [i.u, i.v, i.w],
      [o.u, o.v, o.w],
      [i.du, i.dv, i.dw * dwFactor],
      [o.du, o.dv, o.dw * dwFactor],
      [i.kineticEnergy, o.kineticEnergy, ExitTrack(p, noNuclear)] ]
  }

  /** The numpy variant scales by `wweight` at assembly (lines 189, 192). */
  function NumpyFeatures(p: Pair, wweight: int, noNuclear: bool): seq<seq<int>> {
    Features(p, wweight, noNuclear)
  }

  /** The pandas variant copies the directions as loaded (lines 104, 107)
      and always reads `TrackID_out` (line 110). */
  function PandasFeatures(p: Pair): seq<seq<int>> {
    Features(p, 1, false)
  }

  /** The column of the paired table each cell is read from. */
  function CellColumns(noNuclear: bool): seq<seq<string>> {
    [ ["u" + "_in", "v" + "_in", "w" + "_in"],
      ["u" + "_out", "v" + "_out", "w" + "_out"],
      ["du" + "_in", "dv" + "_in", "dw" + "_in"],
      ["du" + "_out", "dv" + "_out", "dw" + "_out"],
      ["KineticEnergy" + "_in", "KineticEnergy" + "_out", if noNuclear then "TrackID" else "TrackID" + "_out"] ]
  }

  /** Every cell before scaling holds the value of the column it names, so
      the layout reads position, direction and energy of the entry record
      from `_in` columns and of the exit record from `_out` columns; and
      every column it names exists in the paired table. */
  lemma FeaturesReadColumns(p: Pair, noNuclear: bool)
    ensures forall row, col :: 0 <= row < 5 && 0 <= col < 3 ==>
      ColumnValue(p.inRec, p.outRec, CellColumns(noNuclear)[row][col]) == Some(Features(p, 1, noNuclear)[row][col])
    ensures forall row, col :: 0 <= row < 5 && 0 <= col < 3 ==>
      CellColumns(noNuclear)[row][col] in PairColumns(FieldNames, FieldNames, noNuclear)
  {
    forall row, col | 0 <= row < 5 && 0 <= col < 3
      ensures ColumnValue(p.inRec, p.outRec, CellColumns(noNuclear)[row][col]) == Some(Features(p, 1, noNuclear)[row][col])
      ensures CellColumns(noNuclear)[row][col] in PairColumns(FieldNames, FieldNames, noNuclear)
    {
      Cell(p, noNuclear, row, col);
    }
  }

  lemma Cell(p: Pair, noNuclear: bool, row: nat, col: nat)
    requires row < 5 && col < 3
    ensures ColumnValue(p.inRec, p.outRec, CellColumns(noNuclear)[row][col]) == Some(Features(p, 1, noNuclear)[row][col])
    ensures CellColumns(noNuclear)[row][col] in PairColumns(FieldNames, FieldNames, noNuclear)
  {
    if row == 0 {
      EntryPositionCell(p, noNuclear, col);
    } else if row == 1 {
      ExitPositionCell(p, noNuclear, col);
    } else if row == 2 {
      EntryDirectionCell(p, noNuclear, col);
    } else if row == 3 {
      ExitDirectionCell(p, noNuclear, col);
    } else {
      EnergyTrackCell(p, noNuclear, row, col);
    }
  }

  lemma EntryPositionCell(p: Pair, noNuclear: bool, col: nat)
    requires col < 3
    ensures ColumnValue(p.inRec, p.outRec, CellColumns(noNuclear)[0][col]) == Some(Features(p, 1, noNuclear)[0][col])
    ensures CellColumns(noNuclear)[0][col] in PairColumns(FieldNames, FieldNames, noNuclear)
  {
    if col == 0 {
      CellIn(p, noNuclear, "u");
    } else if col == 1 {
      CellIn(p, noNuclear, "v");
    } else {
      CellIn(p, noNuclear, "w");
    }
  }

  lemma ExitPositionCell(p: Pair, noNuclear: bool, col: nat)
    requires col < 3
    ensures ColumnValue(p.inRec, p.outRec, CellColumns(noNuclear)[1][col]) == Some(Features(p, 1, noNuclear)[1][col])
    ensures CellColumns(noNuclear)[1][col] in PairColumns(FieldNames, FieldNames, noNuclear)
  {
    if col == 0 {
      CellOut(p, noNuclear, "u");
    } else if col == 1 {
      CellOut(p, noNuclear, "v");
    } else {
      CellOut(p, noNuclear, "w");
    }
  }

  lemma EntryDirectionCell(p: Pair, noNuclear: bool, col: nat)
    requires col < 3
    ensures ColumnValue(p.inRec, p.outRec, CellColumns(noNuclear)[2][col]) == Some(Features(p, 1, noNuclear)[2][col])
    ensures CellColumns(noNuclear)[2][col] in PairColumns(FieldNames, FieldNames, noNuclear)
  {
    if col == 0 {
      CellIn(p, noNuclear, "du");
    } else if col == 1 {
      CellIn(p, noNuclear, "dv");
    } else {
      CellIn(p, noNuclear, "dw");
    }
  }

  lemma ExitDirectionCell(p: Pair, noNuclear: bool, col: nat)
    requires col < 3
    ensures ColumnValue(p.inRec, p.outRec, CellColumns(noNuclear)[3][col]) == Some(Features(p, 1, noNuclear)[3][col])
    ensures CellColumns(noNuclear)[3][col] in PairColumns(FieldNames, FieldNames, noNuclear)
  {
    if col == 0 {
      CellOut(p, noNuclear, "du");
    } else if col == 1 {
      CellOut(p, noNuclear, "dv");
    } else {
      CellOut(p, noNuclear, "dw");
    }
  }

  lemma EnergyTrackCell(p: Pair, noNuclear: bool, row: nat, col: nat)
    requires 4 <= row < 5 && col < 3
    ensures ColumnValue(p.inRec, p.outRec, CellColumns(noNuclear)[row][col]) == Some(Features(p, 1, noNuclear)[row][col])
    ensures CellColumns(noNuclear)[row][col] in PairColumns(FieldNames, FieldNames, noNuclear)
  {
    if row == 4 && col == 0 {
      CellIn(p, noNuclear, "KineticEnergy");
    } else if row == 4 && col == 1 {
      CellOut(p, noNuclear, "KineticEnergy");
    } else {
      if noNuclear {
        TrackColumns(noNuclear);
        FieldNamesUnsuffixed("TrackID");
      } else {
        CellOut(p, noNuclear, "TrackID");
      }
    }
  }

  /** A non-key column of the entry record, read through its `_in` name. */
  lemma CellIn(p: Pair, noNuclear: bool, t: string)
    requires t in FieldNames && t !in MergeColumns(noNuclear)
    ensures ColumnValue(p.inRec, p.outRec, t + "_in") == Field(p.inRec, t)
    ensures t + "_in" in PairColumns(FieldNames, FieldNames, noNuclear)
  {
    ReadIn(p.inRec, p.outRec, t);
    InColumn(FieldNames, FieldNames, noNuclear, t);
  }

  /** A non-key column of the exit record, read through its `_out` name. */
  lemma CellOut(p: Pair, noNuclear: bool, t: string)
    requires t in FieldNames && t !in MergeColumns(noNuclear)
    ensures ColumnValue(p.inRec, p.outRec, t + "_out") == Field(p.outRec, t)
    ensures t + "_out" in PairColumns(FieldNames, FieldNames, noNuclear)
  {
    ReadOut(p.inRec, p.outRec, t);
    OutColumn(FieldNames, FieldNames, noNuclear, t);
  }

  lemma ReadIn(i: Record, o: Record, t: string)
    ensures ColumnValue(i, o, t + "_in") == Field(i, t)
  {
    StripSuffix(t, "_in");
  }

  lemma ReadOut(i: Record, o: Record, t: string)
    ensures ColumnValue(i, o, t + "_out") == Field(o, t)
  {
    StripSuffix(t, "_out");
    assert (t + "_out")[|t + "_out"| - 1] == 't';
  }

  /** The key column TrackID is in the paired table exactly when it is
      part of the key, and `TrackID_out` exactly when it is not (line 195
      reads whichever exists). */
  lemma TrackColumns(noNuclear: bool)
    ensures ("TrackID" in PairColumns(FieldNames, FieldNames, noNuclear)) <==> noNuclear
    ensures ("TrackID_out" in PairColumns(FieldNames, FieldNames, noNuclear)) <==> !noNuclear
  {
    var cols := PairColumns(FieldNames, FieldNames, noNuclear);
    var merge := MergeColumns(noNuclear);
    assert cols[..|merge|] == merge;
    OutColumn(FieldNames, FieldNames, noNuclear, "TrackID");
    assert "TrackID" + "_out" == "TrackID_out";
    if noNuclear {
      assert cols[2] == "TrackID";
    } else {
      TrackIDNotAColumn(FieldNames, FieldNames);
    }
  }

  lemma TrackIDNotAColumn(inNames: seq<string>, outNames: seq<string>)
    ensures "TrackID" !in PairColumns(inNames, outNames, false)
  {
    var merge := MergeColumns(false);
    var ins, outs := NonKey(inNames, merge), NonKey(outNames, merge);
    var cols := PairColumns(inNames, outNames, false);
    assert cols == merge + Suffixed(ins, "_in") + Suffixed(outs, "_out");
    if "TrackID" in cols {
      var c :| 0 <= c < |cols| && cols[c] == "TrackID";
      ColumnShape(ins, outs, merge, c, false);
      FieldNamesUnsuffixed("TrackID");
    }
  }

  /** With TrackID in the key, entry and exit track agree, so the numpy
      exit track is the exit record's track id in either mode. */
  lemma ExitTrackIsOutTrack(p: Pair, noNuclear: bool)
    requires KeyEq(p.inRec, p.outRec, noNuclear)
    ensures ExitTrack(p, noNuclear) == p.outRec.trackId
  {
  }

  /** Where the two variants apply `wweight` differs, not the result: the
      numpy slice of a pair equals the pandas slice of the same pair with
      both records reweighted at load time. */
  lemma WeightingAtLoadOrAssembly(p: Pair, wweight: int, noNuclear: bool)
    requires KeyEq(p.inRec, p.outRec, noNuclear)
    ensures NumpyFeatures(p, wweight, noNuclear) ==
      PandasFeatures(Pair(Reweighted(p.inRec, wweight), Reweighted(p.outRec, wweight)))
  {
  }

  /** `np.empty(shape=(len(ps_run), 5, 3))` and the fifteen column
      assignments that fill it. */
  method AssembleBatch(batch: seq<Pair>, dwFactor: int, noNuclear: bool) returns (a: array3<int>)
    ensures a.Length0 == |batch| && a.Length1 == 5 && a.Length2 == 3
    ensures forall n, row, col :: 0 <= n < |batch| && 0 <= row < 5 && 0 <= col < 3 ==>
      a[n, row, col] == Features(batch[n], dwFactor, noNuclear)[row][col]
  {
    a := new int[|batch|, 5, 3];
    for n := 0 to |batch|
      invariant forall n', row, col :: 0 <= n' < n && 0 <= row < 5 && 0 <= col < 3 ==>
        a[n', row, col] == Features(batch[n'], dwFactor, noNuclear)[row][col]
    {
      FillSlice(a, n, batch[n], dwFactor, noNuclear);
    }
  }

  /** The fifteen cell assignments for the pair at index n, cell by cell
      from its slice; the slices of the other pairs are left as they were. */
  method FillSlice(a: array3<int>, n: nat, p: Pair, dwFactor: int, noNuclear: bool)
    requires n < a.Length0 && a.Length1 == 5 && a.Length2 == 3
    modifies a
    ensures forall row, col :: 0 <= row < 5 && 0 <= col < 3 ==>
      a[n, row, col] == Features(p, dwFactor, noNuclear)[row][col]
    ensures forall n', row, col :: 0 <= n' < a.Length0 && n' != n && 0 <= row < 5 && 0 <= col < 3 ==>
      a[n', row, col] == old(a[n', row, col])
  {
    var f := Features(p, dwFactor, noNuclear);
    for row := 0 to 5
      invariant forall r, c :: 0 <= r < row && 0 <= c < 3 ==> a[n, r, c] == f[r][c]
      invariant forall n', r, c :: 0 <= n' < a.Length0 && n' != n && 0 <= r < 5 && 0 <= c < 3 ==>
        a[n', r, c] == old(a[n', r, c])
    {
      for col := 0 to 3
        invariant forall r, c :: 0 <= r < row && 0 <= c < 3 ==> a[n, r, c] == f[r][c]
        invariant forall c :: 0 <= c < col ==> a[n, row, c] == f[row][c]
        invariant forall n', r, c :: 0 <= n' < a.Length0 && n' != n && 0 <= r < 5 && 0 <= c < 3 ==>
          a[n', r, c] == old(a[n', r, c])
      {
        a[n, row, col] := f[row][col];
      }
    }
  }
}
