# Proton pairing for proton CT, modelled in Dafny

This project models the core of two proton-pairing scripts:

- `pctpairprotons_numpy.py`
- `pctpairprotons.py`

Both scripts read the phase space of protons entering the object ("in") and the phase space of protons leaving it ("out"). They pair each exiting proton with the entering proton of the same (RunID, EventID) key. When nuclear interactions are excluded, the key also includes TrackID. They then write one (n, 5, 3) image per run.

The numpy script works as follows:

- it keeps only the runs in [min_run, max_run);
- it sets `w` to the plane position;
- it deduplicates the in-stream with `np.unique`, which sorts by key and keeps the first occurrence;
- it pairs with a hand-written two-cursor merge-join, `join_phase_spaces`;
- it is meant to write images only for runs that have pairs, scaling the direction `dw` by `wweight` when it assembles each image. As written, the emptiness test at line 177 reads a name that is never bound, so the run loop stops with NameError before writing any image (see "## Findings"). The model's run loop is the intended one.

The pandas script works as follows:

- it scales `dw` by `wweight` when it loads the records;
- it deduplicates with `drop_duplicates` and pairs with an inner `pd.merge`, on (RunID, EventID) only;
- it writes one image for every run from 0 to the largest, including runs without pairs.

Modules:

- `Records` (records.dfy): records, pairs, join keys and their lexicographic order, `FirstMatch`, subsequences.
- `Loading` (loading.dfy): the run filter, the `w` override, and the load-time weighting of `dw`.
- `Dedup` (dedup.dfy): `drop_duplicates` as `DropDuplicates`, and `np.unique` with `return_index` as `Unique`.
- `Join` (join.dfy): `join_phase_spaces` as the imperative method `JoinPhaseSpaces`, with its inner advance loops `AdvanceIn` and `AdvanceAll`. It is proved against the specification `OutOrderJoin`: each out-record, in out-stream order, is paired with the first in-record of its key.
- `Merge` (merge.dfy): the inner `pd.merge` as `InnerMerge`, and how it relates to the join.
- `Columns` (columns.dfy): the column names of the paired table (`merge_columns`, `_in` and `_out` suffixes) and which value each column holds.
- `Runs` (runs.dfy): the run ranges, the per-run batches and the partition of the pairs into runs.
- `Layout` (layout.dfy): the (5, 3) slice of each pair and `AssembleBatch`, which fills an `array3`.
- `Naming` (naming.dfy): `output.replace('.', f'{r:04d}.')`.
- `Export` (export.dfy): the two run loops as methods returning the images.
- `Variants` (variants.dfy): both scripts end to end, and how their results compare.

The inputs the scripts read from ROOT files are parameters here: a sequence of records per stream.

The output file name follows the code, `output.replace('.', f'{r:04d}.')`. That code places the run number before EVERY '.' of the output path, not only before the extension. A path with no '.' gives every run the same name.

## Model

| member | source | states |
|---|---|---|
| Records.FirstMatch | pctpairprotons_numpy.py:42-52 | the index of the first record sharing x's key, or none exactly when no record has that key |
| Loading.RunFilterMembers | pctpairprotons_numpy.py:131 | the run filter keeps exactly the records with min_run <= RunID < max_run, each as many times as it occurs in the input |
| Loading.RunFilterOrder | pctpairprotons_numpy.py:131 | the kept records are a subsequence of the input, so they stay in input order |
| Loading.RunFilterSorted | pctpairprotons_numpy.py:131 | filtering a stream sorted by key leaves it sorted |
| Loading.RunFilterIdentity | pctpairprotons_numpy.py:131 | when every record lies in the run range, the filter keeps the whole stream |
| Loading.MapRecordsSorted | pctpairprotons_numpy.py:136-140 | a field update that keeps the key columns keeps the stream sorted |
| Loading.LoadNumpy | pctpairprotons_numpy.py:131-140 | the loaded records are the raw records in the run range, in their order and as many, each with w set to the plane |
| Loading.LoadPandas | pctpairprotons.py:61-70 | record k is raw record k with dw multiplied by wweight and w set to the plane; no record is dropped |
| Dedup.DropDuplicatesKeepsFirst | pctpairprotons.py:75 | drop_duplicates keeps a record exactly when it is the first of its key |
| Dedup.DropDuplicatesKeys | pctpairprotons.py:75 | deduplication loses no key |
| Dedup.DropDuplicatesDistinct | pctpairprotons.py:75 | after deduplication no two records share a key |
| Dedup.DropDuplicatesOrder | pctpairprotons.py:75 | the survivors keep their relative order: they form a subsequence of the input, listed in the order in which their keys first occur |
| Dedup.DropDuplicatesFirstOccurrenceOrder | pctpairprotons.py:75 | of any two survivors, the one whose key occurs first in the input comes first |
| Dedup.DropDuplicatesOfDistinct | pctpairprotons.py:75 | a stream with distinct keys is left unchanged |
| Dedup.DropDuplicatesIdempotent | pctpairprotons.py:75 | deduplicating twice is deduplicating once |
| Dedup.InsertByKeyPermutes | pctpairprotons_numpy.py:148-149 | inserting by key adds exactly the inserted record |
| Dedup.InsertByKeyStrictlySorted | pctpairprotons_numpy.py:148-149 | inserting a new key into a strictly ascending sequence keeps it strictly ascending |
| Dedup.SortByKeyPermutes | pctpairprotons_numpy.py:148-149 | the index sort is a permutation |
| Dedup.SortByKeyStrictlySorted | pctpairprotons_numpy.py:148-149 | sorting records with distinct keys gives a strictly ascending sequence |
| Dedup.SortByKeyOfSorted | pctpairprotons_numpy.py:148-149 | an already sorted stream is returned unchanged |
| Dedup.UniqueSpec | pctpairprotons_numpy.py:147-149 | np.unique's result is strictly ascending by key, holds exactly the first occurrence of each key, and keeps every key |
| Dedup.UniqueIdempotent | pctpairprotons_numpy.py:147-149 | applying np.unique twice is applying it once |
| Dedup.UniqueIsDropDuplicatesWhenSorted | pctpairprotons_numpy.py:147-149 | on a sorted stream, np.unique and drop_duplicates agree |
| Join.MatchedSpec | pctpairprotons_numpy.py:52-60 | the out-records that find a partner are exactly those whose key occurs in the in-stream, in out-stream order |
| Join.OutOrderJoinSpec | pctpairprotons_numpy.py:52-60 | the join has one pair per matched out-record, in out-stream order; each pair holds the first in-record of the out-record's key, and the two share the key |
| Join.OneToMany | pctpairprotons_numpy.py:52-60 | out-records with equal keys are paired with the same in-record |
| Join.FirstMatchSameKey | pctpairprotons_numpy.py:42-52 | records with equal keys have the same first match |
| Join.OutOrderJoinSorted | pctpairprotons_numpy.py:52-60 | when the out-stream is sorted, the paired out-records are sorted |
| Join.NoNuclearSameTrack | pctpairprotons_numpy.py:48-52 | with no_nuclear, each pair's two records have the same TrackID |
| Join.AdvanceIn | pctpairprotons_numpy.py:42-50 | one inner loop moves the in-cursor forward over lagging records. It stops at the first record that does not lag, or reports the in-stream exhausted on the last record |
| Join.AdvanceAll | pctpairprotons_numpy.py:42-50 | the three inner loops skip only records whose key is below the out-record's. On a sorted in-stream they stop at the first record whose key is not below it |
| Join.JoinPhaseSpaces | pctpairprotons_numpy.py:11-66 | on non-empty streams, every pair shares its key and takes its in-record from ps_in; the paired out-records are a subsequence of ps_out. When both streams are sorted, the result is exactly OutOrderJoin |
| Join.FirstMatchAt | pctpairprotons_numpy.py:42-52 | on a sorted in-stream, the cursor where the inner loops stop is the first match, if the key there is equal |
| Join.NothingMatchesFrom | pctpairprotons_numpy.py:62-63 | once every in-record is below the current out-record, the remaining sorted out-records add no pair, so stopping there loses nothing |
| Merge.MatchesOfSpec | pctpairprotons.py:74-80 | one left row's merge rows are exactly the right rows sharing its key |
| Merge.InnerMergeSpec | pctpairprotons.py:74-80 | the inner merge holds exactly the (left, right) pairs with equal (RunID, EventID); TrackID is not compared when no_nuclear is off |
| Merge.InnerMergeSnoc | pctpairprotons.py:74-80 | adding a right row adds exactly that row's column of pairs |
| Merge.ColumnOfDistinct | pctpairprotons.py:74-80 | with distinct left keys, a right row matches at most one left row: the first of its key |
| Merge.InnerMergeIsJoin | pctpairprotons.py:74-80 | with distinct left keys, the inner merge has the same pairs, as many times each, as the out-order join |
| Merge.InnerMergeEmptyRight | pctpairprotons.py:74-80 | merging with no right rows gives no pairs |
| Merge.JoinIgnoresInOrder | pctpairprotons_numpy.py:148-163 | the join over distinct keys does not depend on the order of the in-stream |
| Merge.ScriptsPairAlike | pctpairprotons_numpy.py:147-163 | the join over np.unique's result and the inner merge over drop_duplicates' result give the same multiset of pairs |
| Columns.NonKeySpec | pctpairprotons_numpy.py:17-18 | the unique columns are exactly the names that are not merge columns, in their order |
| Columns.FieldNamesUnsuffixed | pctpairprotons_numpy.py:20-24 | no loaded column name already ends in `_in` or `_out` |
| Columns.PairColumnsLayout | pctpairprotons_numpy.py:13-24 | the paired table starts with the merge columns. TrackID is a merge column exactly when no_nuclear is set. t_in (t_out) is a column exactly when t is a non-key in (out) column |
| Columns.ColumnShape | pctpairprotons_numpy.py:20-24 | column c is a merge column, or an in-column with `_in`, or an out-column with `_out`, by position |
| Columns.SuffixedInjective | pctpairprotons_numpy.py:20-24 | suffixing never makes two names equal |
| Columns.PairRowReadsByName | pctpairprotons_numpy.py:53-57 | each pair row has one value per column, and the value under each name is the field that name denotes: key columns from the in-record, `_in` from the in-record, `_out` from the out-record |
| Runs.MaxRun | pctpairprotons_numpy.py:167 | the largest RunID among the pairs, attained by some pair |
| Runs.RunRange | pctpairprotons_numpy.py:174 | `range(lo, hi)`: hi - lo consecutive runs from lo, none when hi <= lo |
| Runs.RunBatchSpec | pctpairprotons_numpy.py:176 | a run's batch is exactly the pairs of that run, in pair order |
| Runs.NonEmptyRunsSpec | pctpairprotons_numpy.py:177-178 | the runs kept are exactly those in the range whose batch is non-empty, in range order |
| Runs.NumpyRunIdsSpec | pctpairprotons_numpy.py:167-178 | the numpy script writes exactly the runs in [min_run, max_run) that have pairs, in ascending order |
| Runs.NumpyRunId | pctpairprotons_numpy.py:167-178 | the same, for one run |
| Runs.PandasRunIdsSpec | pctpairprotons.py:83-90 | the pandas script visits exactly the runs from 0 to the largest RunID, in ascending order |
| Runs.InRunsSplit | pctpairprotons_numpy.py:174-176 | the pairs in runs [lo, hi) are those in [lo, hi-1) plus the batch of run hi-1 |
| Runs.BatchesOfRange | pctpairprotons_numpy.py:174-176 | the batches of a run range together hold exactly the pairs in that range |
| Runs.BatchesOfNonEmpty | pctpairprotons_numpy.py:177-178 | skipping the empty runs loses no pair |
| Runs.NumpyPartition | pctpairprotons_numpy.py:167-178 | the numpy batches hold every pair whose run lies in [min_run, max_run), once each |
| Runs.PandasPartition | pctpairprotons.py:83-93 | the pandas batches hold every pair whose run lies in [0, max RunID], once each |
| Runs.PandasPartitionAll | pctpairprotons.py:83-93 | with no negative RunID, the pandas batches hold every pair, once each |
| Runs.InRunsAll | pctpairprotons_numpy.py:174-176 | when every pair lies in the range, the range holds all pairs |
| Layout.FeaturesReadColumns | pctpairprotons_numpy.py:180-195 | each cell of the (5, 3) slice holds the column its row names: in/out position, in/out direction, in/out energy, and TrackID with no_nuclear or TrackID_out without; each of those columns exists in the paired table |
| Layout.Cell | pctpairprotons_numpy.py:180-195 | the same, for one cell |
| Layout.CellIn | pctpairprotons_numpy.py:181-193 | a non-key column t of the entry record is read through t_in, which exists |
| Layout.CellOut | pctpairprotons_numpy.py:184-194 | a non-key column t of the exit record is read through t_out, which exists |
| Layout.TrackColumns | pctpairprotons_numpy.py:195 | TrackID is a column exactly with no_nuclear, and TrackID_out exactly without, so line 195 always reads an existing column |
| Layout.TrackIDNotAColumn | pctpairprotons.py:73-80 | the pandas paired table has no bare TrackID column, since TrackID is not a merge column |
| Layout.ExitTrackIsOutTrack | pctpairprotons_numpy.py:195 | both choices of exit track give the out-record's TrackID |
| Layout.WeightingAtLoadOrAssembly | pctpairprotons.py:61-110 | scaling dw at assembly (numpy) or at load (pandas) gives the same slice |
| Layout.AssembleBatch | pctpairprotons_numpy.py:180-195 | the (n, 5, 3) array holds, at [n, row, col], the slice of the batch's n-th pair, dw scaled by the factor |
| Layout.FillSlice | pctpairprotons_numpy.py:180-195 | the slice at index n holds the pair's 15 cells; the slices of the other pairs are unchanged |
| Naming.Format04Reads | pctpairprotons_numpy.py:199 | `f'{r:04d}'` has at least four characters, exactly four for runs -999 to 9999, and no leading zero when longer; its digits read back as the run, with '-' exactly for negative runs |
| Naming.DigitsLeading | pctpairprotons_numpy.py:199 | the decimal digits of a positive number do not start with '0' |
| Naming.DigitsLength | pctpairprotons_numpy.py:199 | a run below 10^k has at most k digits |
| Naming.Format04Injective | pctpairprotons_numpy.py:199 | different runs are formatted differently |
| Naming.ValueOfDigits | pctpairprotons_numpy.py:199 | the decimal digits of n read back as n |
| Naming.ValueOfPadded | pctpairprotons_numpy.py:199 | leading zeros do not change the value |
| Naming.FirstDot | pctpairprotons_numpy.py:199 | the text before the first '.' is determined by the name |
| Naming.NoDotInFormat | pctpairprotons_numpy.py:199 | the formatted run has no '.' |
| Naming.OutputNameInjective | pctpairprotons_numpy.py:199 | when the output path has a '.', different runs get different file names |
| Naming.OutputNameWithoutDot | pctpairprotons.py:116 | without a '.', every run gets the output path itself |
| Naming.Format04Examples | pctpairprotons_numpy.py:199 | 3, 12, -5 and 12345 are formatted "0003", "0012", "-005" and "12345" |
| Naming.OutputNameAppend | pctpairprotons_numpy.py:199 | the pieces of a path are renamed independently |
| Naming.OutputNameStemDot | pctpairprotons_numpy.py:199 | a dot-free stem and '.' become the stem, the formatted run and '.' |
| Naming.OutputNameOneDot | pctpairprotons.py:116 | a path stem.ext with dot-free stem and ext becomes stem, the formatted run, '.', ext, e.g. "pairs.mha" for run 3 is "pairs0003.mha" |
| Naming.OutputNameEveryDot | pctpairprotons_numpy.py:199 | a path a.b.ext with dot-free pieces receives the run before both '.', e.g. "a.b.mha" for run 12 is "a0012.b0012.mha" |
| Export.ExportNumpy | pctpairprotons_numpy.py:167-200 | one image per run that has pairs in [min_run, max_run), in ascending order; each is named after its run and holds that run's batch, dw scaled by wweight. This is the loop with line 177 corrected to test the run's own pairs |
| Export.ExportPandas | pctpairprotons.py:83-118 | one image per run from 0 to the largest; each is named after its run and holds that run's batch, dw as loaded and TrackID_out, with 0 slices for a run without pairs |
| Export.NumpyRunLoopAsWrittenWritesNothing | pctpairprotons_numpy.py:174-178 | as written, the numpy run loop raises NameError whenever some run in range has pairs |
| Export.NumpyRunLoopCounterexample | pctpairprotons_numpy.py:177 | one pair of run 0 with the default run bounds: the intended loop writes run 0, the loop as written raises NameError |
| Variants.FirstMatchReweight | pctpairprotons.py:61 | weighting dw does not move the first match of a key |
| Variants.DropDuplicatesReweight | pctpairprotons.py:61-75 | deduplicating commutes with weighting dw |
| Variants.InsertByKeyReweight | pctpairprotons_numpy.py:148 | inserting by key commutes with weighting dw |
| Variants.SortByKeyReweight | pctpairprotons_numpy.py:148 | the key sort commutes with weighting dw |
| Variants.UniqueReweight | pctpairprotons_numpy.py:148-149 | np.unique commutes with weighting dw |
| Variants.OutOrderJoinReweight | pctpairprotons_numpy.py:52-60 | joining weighted streams gives the weighted pairs |
| Variants.LoadPandasIsReweightedNumpy | pctpairprotons.py:35-70 | when all records lie in the run range, the pandas load is the numpy load with dw weighted |
| Variants.ScriptsPairTheSameProtons | pctpairprotons.py:73-80 | from the same records in the run range, with key (RunID, EventID): the numpy join's pairs, with dw weighted, are the pandas merge's pairs, as many times each |
| Variants.RunIdsCompared | pctpairprotons.py:83-90 | a numpy run that is not negative is also a pandas run. A pandas run with pairs inside [min_run, max_run) is also a numpy run. Only the pandas script writes runs without pairs |
| Variants.NumpyPairs | pctpairprotons_numpy.py:135-163 | every pair shares its key. On a sorted out-stream the pairs are exactly the join over np.unique's result, in out-stream order. With no_nuclear off, they are also the inner merge over drop_duplicates' result, as a multiset |
| Variants.NumpyMain | pctpairprotons_numpy.py:135-200 | the pairs as above. No images exactly when there are no pairs; otherwise the numpy images of those pairs, written by the run loop with line 177 corrected |
| Variants.PandasMain | pctpairprotons.py:65-118 | the pairs are the inner merge over the deduplicated in-stream. No images exactly when there are no pairs; otherwise the pandas images of those pairs |

## Left out

- Reading ROOT files through `uproot`, the column extraction and renaming inside `load_tree_as_df`, and building the record array are not modelled. Each stream is a parameter: the raw records, with `u`, `v`, `w`, `du`, `dv` and `dw` already chosen by the projection arguments.
- `itk.GetImageFromArray` and `itk.imwrite` are not modelled. An image is its file name and its (n, 5, 3) array.
- `argparse` and the `verbose` messages are left out. Arguments are method parameters, with `max_run` defaulting to 1000000.
- Values are integers, and `wweight` multiplies exactly. The float32 conversion and its rounding are not modelled.
- The internals of `np.unique`, `drop_duplicates` and `pd.merge` are not modelled; only their documented results are. pd.merge's row order is modelled as left row by left row. The comparison with the join is stated as multisets, so it does not depend on that order.
- Variants.NumpyPairs, Variants.NumpyMain, Join.JoinPhaseSpaces: they require non-empty streams. The first two `next` calls (pctpairprotons_numpy.py:36-37) raise StopIteration outside the `try` on an empty stream. That crash is not modelled.
- Export.ExportNumpy, Export.ExportPandas: they require at least one pair. On an empty pair table the numpy script's `max()` raises ValueError (pctpairprotons_numpy.py:167). The pandas script's `max()` gives NaN (pctpairprotons.py:83), and `range` on it raises TypeError (pctpairprotons.py:90). These exceptions are not modelled. Variants.NumpyMain and Variants.PandasMain return no images in that case.
- Join.JoinPhaseSpaces: its exact result is stated only for sorted streams. On unsorted streams it states soundness and out-stream order only. The scripts rely on the ROOT files being sorted by key.
- Variants.ScriptsPairTheSameProtons: it is stated with the key (RunID, EventID), which is the only key pctpairprotons.py uses, and for records inside the run range. Outside that range only the numpy script drops records.
- The numpy dtype list of the paired table (pctpairprotons_numpy.py:26-30) is not modelled, since every value is an integer here.

## Findings

| source | as written | input that shows it | evidently intended | confidence | as-written member | corrected member |
|---|---|---|---|---|---|---|
| pctpairprotons_numpy.py:177 | the emptiness test reads `len(df_run)`, a name that is never bound in `main`, so the first iteration of the run loop raises NameError and no image is written | one pair of run 0 with min_run 0 and max_run 1000000 | `len(ps_run) == 0`: skip runs without pairs and write one image per run that has pairs | high (not executed) | Export.NumpyRunLoopCounterexample | Export.ExportNumpy |
