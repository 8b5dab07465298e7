# data_preprocessor cleaning engine, modelled in Dafny

This project models the cleaning engine of the `data_preprocessor` package. It is a set of small
handler classes that share one pandas DataFrame and edit it:

- `DuplicateHandler` finds, lists and removes repeated rows, keeping the first copy of each.
- `MissingValuesHandler` reports missing cells per column. It either drops the rows where one
  column is missing, or fills that column with its mean, median or mode.
- `OutlierHandler.cap_iqr` clamps a numeric column into `[Q1 - 1.5 IQR, Q3 + 1.5 IQR]`.
- `DataTypeHandler` lists column dtypes, looks up the dtypes of named columns and converts a column.
- `PreprocessingPipeline` hands one DataFrame object to all four handlers.

How the model is built:

- **Tables.** The value of a DataFrame is `Frame.Table`: an ordered list of uniquely named,
  typed columns over rows of equal width.
- **Cells.** A cell (`Cells.Value`) is missing (`Null`), a number, a text, a category or a
  timestamp. Integers and floats share the one `Number` constructor over `real`, because
  Python's `==` and pandas' hashing treat `2` and `2.0` as the same value. Whether a column is
  int64 or float64 is recorded in its dtype.
- **The DataFrame object.** It is the class `Frame.DataFrame`. Its fields are reassigned in
  place, so every handler that holds the same object sees the change.
- **Handlers.** Each handler is a class holding that object. `MissingValuesHandler` keeps its
  reference in a `var` field, because `drop` rebinds it to a new object.
- **Calls.** Each state-changing call is a method, and the queries are functions of the held
  object. A method's contract ties the new state to a function on table values (`Duplicates.Deduplicated`, `Missing.HandledNulls`, `Outliers.CappedIqr`,
  `Dtypes.Converted`). The properties the code promises are proved as lemmas about those
  functions.
- **Errors.** A pandas error (KeyError, ValueError, TypeError) is an `Err` result. The method
  then reports it and leaves the table as it was.

Statistics follow pandas defaults:

- The mean and median skip missing cells.
- Quantiles use the linear rule: position `h = (n - 1) p` among the sorted values, interpolating
  between the two neighbours.
- The mode is the most frequent present value. Ties go to the smallest value in pandas' sort
  order, because `mode()` is sorted and `[0]` is taken.

### Edge cases, and a property that does not hold

- **cap_iqr is not idempotent when the bounds are recomputed** under the linear rule. On
  `[0, 100, 100, 100]` the first call raises 0 to 37.5. A second call computes a new lower bound of 60.9375 and raises that cell again. This is
  `OutlierExamples.CapIqrNotIdempotent`. With fixed bounds, capping *is* idempotent
  (`Outliers.CappedIdempotent`).
- **The quartiles of `[10, 12, 11, 13, 1000]` are 11 and 13**, as numpy's linear rule computes
  them. The bounds are therefore 8 and 16 (`OutlierExamples.SpikeExample`).
- **check_nulls divides by the row count without a guard.** A table without rows would give a
  NaN ratio. The model requires at least one row.
- **mean or median of a column with no present value is NaN in pandas.** Filling with NaN
  changes nothing, so the model returns the table unchanged. `mode()[0]` of such a column
  fails, and the model returns `NoMode`.
- **A frame without columns is `empty`.** pandas' `duplicated` and `drop_duplicates` then
  return before comparing rows. check_duplicates is 0 and remove_duplicates leaves the rows
  as they are. show_duplicates indexes the frame with the resulting empty mask. That fails
  (pandas IndexingError, `UnalignableIndexer` here) unless the frame has no rows either.
- **cap_iqr on a column with no present value gets NaN bounds.** Both masks are then empty and
  the table is unchanged.

## Model

| member | source | states |
|---|---|---|
| `Duplicates.Duplicated` | data_preprocessor/duplicates.py:6 | row i is flagged exactly when an earlier row equals it in every column (keep='first'); one flag per row |
| `Duplicates.DuplicateCount` | data_preprocessor/duplicates.py:6 | the number of flagged rows; in a non-empty list of rows it is below the row count, because the first row is never flagged |
| `Duplicates.DuplicateRows` | data_preprocessor/duplicates.py:13 | the flagged rows, exactly as many as DuplicateCount |
| `Duplicates.Deduplicated` | data_preprocessor/duplicates.py:9 | the unflagged rows; their number is the row count minus DuplicateCount |
| `Duplicates.DuplicateCountIsRepeats` | data_preprocessor/duplicates.py:5-6 | the duplicate count plus the number of distinct rows is the row count, so first occurrences are never counted |
| `Duplicates.DuplicateRowsExact` | data_preprocessor/duplicates.py:11-13 | the shown rows are exactly the flagged rows, in table order, and there are as many as check_duplicates counts |
| `Duplicates.DeduplicatedKeepsFirst` | data_preprocessor/duplicates.py:8-9 | removal keeps exactly the rows that do not occur earlier, in their original order |
| `Duplicates.DeduplicatedSameRows` | data_preprocessor/duplicates.py:8-9 | removal keeps the set of distinct rows |
| `Duplicates.DeduplicatedNoRepeats` | data_preprocessor/duplicates.py:8-9 | after removal no two rows are equal |
| `Duplicates.NoRepeatsFixed` | data_preprocessor/duplicates.py:5-9 | a table without repeated rows has count 0 and removal leaves it as it is |
| `Duplicates.DeduplicatedIdempotent` | data_preprocessor/duplicates.py:5-9 | after removal check_duplicates is 0 and a second removal changes nothing |
| `Duplicates.DuplicatesPartition` | data_preprocessor/duplicates.py:8-13 | shown duplicates plus kept rows are the original rows, as a multiset |
| `Duplicates.ThreeRowExample` | data_preprocessor/duplicates.py:5-13 | rows (1,"10"), (2,"20"), (2,"20"): count 1, the second (2,"20") is shown, two rows are kept |
| `Duplicates.DuplicateHandler.constructor` | data_preprocessor/duplicates.py:2-3 | the handler holds the object it is given |
| `Duplicates.DuplicateHandler.CheckDuplicates` | data_preprocessor/duplicates.py:5-6 | on a frame with columns, the count plus the number of distinct rows is the row count of the held object; on a frame without columns (pandas `empty`) the count is 0 |
| `Duplicates.DuplicateHandler.ShowDuplicates` | data_preprocessor/duplicates.py:11-13 | the flagged rows under the same header, as many as CheckDuplicates; fails exactly on a frame with rows but no columns, where the empty mask cannot be aligned |
| `Duplicates.DuplicateHandler.RemoveDuplicates` | data_preprocessor/duplicates.py:8-9 | the held object itself keeps its header and dtypes and now holds the deduplicated rows (unchanged rows when it has no columns); it is shorter by the old CheckDuplicates and has no duplicates left |
| `Missing.NullCount` | data_preprocessor/missing.py:11 | the number of missing cells of a column is at most its length |
| `Missing.NullCountIsMultiplicity` | data_preprocessor/missing.py:11 | the null count is the multiplicity of the missing marker in the column |
| `Missing.NullReport` | data_preprocessor/missing.py:7-17 | one line per column in column order: its name, its missing-cell count, and count / rows * 100, which lies in [0, 100] |
| `Missing.MissingValuesHandler.CheckNulls` | data_preprocessor/missing.py:7-17 | the report for the object the handler currently holds |
| `Missing.Mode` | data_preprocessor/missing.py:43 | the fill value occurs in the column, no value occurs more often, and among equally frequent values it is the smallest |
| `Cells.LeTotal` | data_preprocessor/missing.py:43 | the order used to break mode ties is total |
| `Cells.LeAntisymmetric` | data_preprocessor/missing.py:43 | that order is antisymmetric, so the smallest tied value is unique |
| `Cells.LeTransitive` | data_preprocessor/missing.py:43 | that order is transitive |
| `Missing.HandledNulls` | data_preprocessor/missing.py:30-31 | an unknown column fails with ColumnNotFound whatever the strategy, so it is checked before the strategy; a success is a well-formed table |
| `Missing.HandledNullsErrors` | data_preprocessor/missing.py:33-48 | on a known column the call fails exactly for an unknown strategy, a categorical column or a non-numeric cell under mean/median, or an all-missing column under mode; an unknown strategy fails with InvalidStrategy |
| `Missing.HandledNullsInPlace` | data_preprocessor/missing.py:36-43 | mean, median and mode rewrite only the named column and keep its dtype |
| `Missing.CategoricalExample` | data_preprocessor/missing.py:36-43 | a categorical column of numbers is refused by mean and median and filled by mode |
| `Missing.DropNulls` | data_preprocessor/missing.py:33-34 | header and dtypes stay, one row goes for each missing cell of the column, and no kept row is missing that cell |
| `Missing.PresentCount` | data_preprocessor/missing.py:34 | present and missing cells of a column add up to its length |
| `Missing.Filled` | data_preprocessor/missing.py:36-43 | header, dtypes and row count stay; a present fill value leaves the column with no missing cell, a missing one leaves its null count |
| `Missing.FillNaNullCount` | data_preprocessor/missing.py:37-43 | fillna with a present value leaves no missing cell; with a missing value it keeps the count |
| `Cells.NonNullMembers` | data_preprocessor/missing.py:43 | the values mode counts are exactly the present cells of the column |
| `Cells.NonNullEmpty` | data_preprocessor/missing.py:43 | no value is left for mode exactly when every cell of the column is missing |
| `Missing.DropNullsExact` | data_preprocessor/missing.py:33-34 | drop keeps exactly the rows whose cell in the column is present, in order and with all their cells |
| `Missing.FilledOnlyNulls` | data_preprocessor/missing.py:36-43 | filling changes only the missing cells of the column; header, dtypes, row count and other cells stay |
| `Missing.FillLeavesNoNulls` | data_preprocessor/missing.py:36-43 | when the column has a present value, a successful mean/median/mode fill leaves no missing cell in it |
| `Missing.ScoreMeanExample` | data_preprocessor/missing.py:36-37 | score [1, 2, null, 4] filled by mean becomes [1, 2, 7/3, 4] |
| `Missing.ScoreDropExample` | data_preprocessor/missing.py:33-34 | score [1, 2, null, 4] under drop keeps the rows 1, 2 and 4 |
| `Missing.MissingValuesHandler.constructor` | data_preprocessor/missing.py:4-5 | the handler holds the object it is given |
| `Missing.MissingValuesHandler.HandleNulls` | data_preprocessor/missing.py:19-48 | the result and new state follow HandledNulls; an error changes nothing; drop binds the handler to a new object and leaves the old one untouched; a fill writes the held object in place |
| `Stats.Sort` | data_preprocessor/missing.py:40 | the order statistics: sorted, same values, same length |
| `Stats.Mean` | data_preprocessor/missing.py:37 | the mean of equal values is that value |
| `Stats.SumConstant` | data_preprocessor/missing.py:37 | the sum of n equal values is n times that value |
| `Stats.Median` | data_preprocessor/missing.py:40 | the median lies between the smallest and largest value |
| `Stats.Quantile` | data_preprocessor/outliers.py:22-23 | every linear-rule quantile lies between the smallest and largest value |
| `Stats.SortOf` | data_preprocessor/outliers.py:22-23 | any sorted arrangement of the same values is the order statistics |
| `Stats.MeanWithin` | data_preprocessor/missing.py:37 | the mean lies between any lower and upper bound of the present values |
| `Stats.MedianIsHalfQuantile` | data_preprocessor/missing.py:40 | the median (middle value, or mean of the two middle values) is the 0.5 quantile |
| `Stats.QuantileMonotone` | data_preprocessor/outliers.py:22-23 | the linear-rule quantile is monotone in p, so Q1 <= Q3 |
| `Outliers.IqrFence` | data_preprocessor/outliers.py:22-27 | lower <= Q1 <= Q3 <= upper, the quartiles lie within the values, and each bound is 1.5 IQR beyond its quartile |
| `Outliers.Clamp` | data_preprocessor/outliers.py:29-30 | a numeric cell ends in [lo, hi]; below lo becomes lo, above hi becomes hi, in-range and non-numeric cells are unchanged |
| `Outliers.CappedColumn` | data_preprocessor/outliers.py:29-30 | the two masked assignments, the second reading the result of the first, clamp each cell on its own when lower <= upper |
| `Outliers.CappedCells` | data_preprocessor/outliers.py:29-30 | after capping every present cell lies in [lower, upper], below becomes exactly lower, above exactly upper, the rest (missing cells included) is unchanged |
| `Outliers.CappedMonotone` | data_preprocessor/outliers.py:29-30 | capping keeps the order of any two present cells |
| `Outliers.CappedIdempotent` | data_preprocessor/outliers.py:29-30 | capping twice with the same bounds equals capping once |
| `Outliers.CappedIqr` | data_preprocessor/outliers.py:21-30 | an unknown column fails with ColumnNotFound; a success keeps the header, the dtypes and the row count |
| `Outliers.CappedIqrFacts` | data_preprocessor/outliers.py:21-30 | cap_iqr fails exactly on an unknown column, a categorical column or a non-numeric cell; on success header, dtypes, row count and other columns stay and each cell of the column is clamped into the computed bounds |
| `Outliers.OutlierHandler.constructor` | data_preprocessor/outliers.py:4-5 | the handler holds the object it is given |
| `Outliers.OutlierHandler.CapIqr` | data_preprocessor/outliers.py:21-30 | the held object itself is overwritten below and then above the bounds, ending as CappedIqr says; an error changes nothing |
| `OutlierExamples.SpikeFence` | data_preprocessor/outliers.py:22-27 | [10, 12, 11, 13, 1000] has Q1 = 11, Q3 = 13, bounds 8 and 16 |
| `OutlierExamples.SpikeExample` | data_preprocessor/outliers.py:21-30 | cap_iqr turns [10, 12, 11, 13, 1000] into [10, 12, 11, 13, 16] |
| `OutlierExamples.CapIqrNotIdempotent` | data_preprocessor/outliers.py:21-30 | on [0, 100, 100, 100] the first call gives [37.5, 100, 100, 100] and a second call raises 37.5 to 60.9375 |
| `Dtypes.TypeList` | data_preprocessor/datatypes.py:21-22 | every column with its dtype, in column order |
| `Dtypes.CheckDtypes` | data_preprocessor/datatypes.py:7-25 | fails exactly on an empty selection; no filter lists every column's dtype; a filter yields names only |
| `Dtypes.CheckDtypesSelected` | data_preprocessor/datatypes.py:25 | a filter yields, in table order, exactly the columns whose dtype it selects |
| `Dtypes.CheckDtypesMembers` | data_preprocessor/datatypes.py:25 | a name is listed exactly when it names a column whose dtype the filter selects |
| `Dtypes.ColumnsDtypes` | data_preprocessor/datatypes.py:38-59 | fails exactly when some requested name is absent; otherwise each requested name with its dtype, in request order |
| `Dtypes.ColumnsDtypesMissing` | data_preprocessor/datatypes.py:55-57 | the error lists every absent name, in request order, and no other |
| `Dtypes.ColumnsDtypesOne` | data_preprocessor/datatypes.py:51-52 | a single name is looked up as the one-element list holding it |
| `Dtypes.Converted` | data_preprocessor/datatypes.py:27-35 | an unknown column fails with ColumnNotFound; a success keeps the header and the row count |
| `Dtypes.ToTimestamps` | data_preprocessor/datatypes.py:32-33 | a missing or unparseable cell becomes missing and a parsed cell becomes its timestamp, at the same position |
| `Dtypes.FirstUncast` | data_preprocessor/datatypes.py:34-35 | the position of the first cell the cast refuses; every earlier cell is accepted |
| `Dtypes.CastCells` | data_preprocessor/datatypes.py:34-35 | every cell replaced by its cast, at the same position |
| `Dtypes.ConvertedDatetime` | data_preprocessor/datatypes.py:32-33 | conversion to datetime fails only on an unknown column, keeps the row count, retypes the column and changes no other column |
| `Dtypes.ConvertedAsType` | data_preprocessor/datatypes.py:34-35 | any other conversion fails exactly when the column is unknown or some cell does not cast; on success every cell is cast and no other column changes |
| `Dtypes.DataTypeHandler.constructor` | data_preprocessor/datatypes.py:4-5 | the handler holds the object it is given |
| `Dtypes.DataTypeHandler.ListDtypes` | data_preprocessor/datatypes.py:7-25 | check_dtypes on the held object: all dtypes in column order, or exactly the selected names |
| `Dtypes.DataTypeHandler.GetColumnsDtypes` | data_preprocessor/datatypes.py:38-59 | get_columns_dtypes on the held object: fails exactly on an absent name, else the dtypes in request order |
| `Dtypes.DataTypeHandler.ConvertDtype` | data_preprocessor/datatypes.py:27-35 | the held object gets the converted column only when conversion succeeded; a failure leaves it as it was |
| `Frame.DataFrame.AssignColumn` | data_preprocessor/datatypes.py:33 | `df[name] = col` replaces one column of the object in place; header and other columns stay |
| `Frame.DataFrame.AssignWhere` | data_preprocessor/outliers.py:29 | `df.loc[mask, name] = v` overwrites the masked cells of one column in place, keeping its dtype |
| `Frame.DataFrame.KeepRows` | data_preprocessor/duplicates.py:9 | the object keeps only the masked rows, in place |
| `Pipeline.PreprocessingPipeline.constructor` | data_preprocessor/pipeline.py:7-12 | stores the object and gives that same object to four new handlers; the table is not changed |
| `Pipeline.PreprocessingPipeline.GetData` | data_preprocessor/pipeline.py:14-15 | returns the stored object itself |
| `Pipeline.RemoveDuplicatesVisible` | data_preprocessor/pipeline.py:8-15 | removing duplicates through the pipeline's handler is seen through get_data, also after a drop: same header and dtypes, the deduplicated rows (unchanged without columns), and check_duplicates 0 afterwards |
| `Pipeline.CapIqrVisible` | data_preprocessor/pipeline.py:11-15 | capping through the pipeline's handler is seen through get_data, also after a drop |
| `Pipeline.ConvertDtypeVisible` | data_preprocessor/pipeline.py:9-15 | converting through the pipeline's handler is seen through get_data, also after a drop |
| `Pipeline.HandleNullsVisible` | data_preprocessor/pipeline.py:10-15 | a fill through the missing-values handler is seen through get_data; a drop is not, and the handler then holds a fresh object of its own, while the other three handlers still share the pipeline's object |
| `Pipeline.DropThenHandleNulls` | data_preprocessor/pipeline.py:10-15 | after a drop the missing-values handler goes on cleaning its own new object (a second handle_nulls applies to the dropped table), while get_data still shows the table from before |
| `Pipeline.DropThenRemoveDuplicates` | data_preprocessor/pipeline.py:8-15 | after a drop through the missing-values handler, removing duplicates is still seen through get_data, on the rows from before the drop |

## Left out

- The Streamlit user interface in main.py is not part of this model. That covers upload,
  widgets and CSV download.
- `replace_in_duplicates` is called by the user interface but not defined in duplicates.py, so
  there is no behaviour to model.
- `OutlierHandler.boxplot`, multivariate.py and the data_visualization package are left out.
  They are matplotlib and seaborn rendering.
- Real pandas date parsing and `astype` casting are taken as given.
  - `Dtypes.Coercion` holds them as a parse function (cell to optional nanoseconds) and a cast
    function (cell and dtype to optional cell).
  - A dtype name pandas does not know cannot be expressed, because `Target` names only the
    modelled dtypes.
  - The parse function works on one cell at a time. pandas 2 `to_datetime` infers a single
    format from the first present value and coerces every cell that does not match it to
    NaT. That dependence between cells is not captured.
- float64 is exact `real`. Rounding is not modelled, and neither is NaN arithmetic, beyond
  the no-op fills and caps described above.
- After a cap or a fill, pandas may upcast the column's dtype (for example int64 to float64
  when a bound is not a whole number). The model keeps the dtype. The written value is a
  `Number` cell, which compares equal to an integer cell of the same value. Duplicate
  detection and mode therefore see the same values pandas sees.
- Mean, median, quantiles and capping of timestamp columns are not modelled. mean, median and
  cap_iqr fail with `NotNumeric` on a column whose dtype is categorical
  (`Frame.Table.NumericColumn`). They also fail on a column holding a timestamp, text or
  category cell, whatever its dtype.
- The pandas row index is represented only by positions. show_duplicates displays the
  original row labels, and dropna and drop_duplicates leave gaps in them. The model keeps
  the original positions instead (`Duplicates.DuplicateRowsExact`, `Missing.DropNullsExact`).
- `Missing.NullReport`: requires at least one row, because the code divides by the row count
  and pandas would give a NaN ratio.
- `Missing.MissingValuesHandler.CheckNulls`: requires at least one row, for the same reason.
- The pandas objects returned by check_nulls, check_dtypes and get_columns_dtypes are sequences
  of records here, not a DataFrame, Series or Index.
