/** The composition root (`PreprocessingPipeline` in data_preprocessor/pipeline.py):
    one DataFrame object handed to all four handlers. */
module Pipeline {
  import opened Cells
  import opened Frame
  import opened Duplicates
  import opened Missing
  import opened Outliers
  import opened Dtypes

  class PreprocessingPipeline {
    const df: DataFrame
    const dtypes: DataTypeHandler
    const missing: MissingValuesHandler
    const outliers: OutlierHandler
    const duplicates: DuplicateHandler

    /** The three handlers that never rebind their reference hold the pipeline's own
        DataFrame object; this stays true whatever the missing-values handler does. */
    ghost predicate Shared()
    {
      && dtypes.df == df
      && outliers.df == df
      && duplicates.df == df
    }

    /** Every handler holds the pipeline's own DataFrame object; a drop through the
        missing-values handler ends this. */
    ghost predicate Wired()
      reads this, missing
    {
      Shared() && missing.df == df
    }

    /** Stores the object and gives that same object to four new handlers; the table
        is neither checked nor changed. */
    constructor (df: DataFrame)
      ensures this.df == df && Wired()
      ensures fresh(dtypes) && fresh(missing) && fresh(outliers) && fresh(duplicates)
      ensures df.View() == old(df.View())
    {
      this.df := df;
      dtypes := new DataTypeHandler(df);
      missing := new MissingValuesHandler(df);
      outliers := new OutlierHandler(df);
      duplicates := new DuplicateHandler(df);
    }

    /** get_data: the stored object itself, not a copy. */
    function GetData(): (d: DataFrame)
      ensures d == df
    {
      df
    }
  }

  /** Removing duplicates through the pipeline's handler shrinks the table get_data returns. */
  method RemoveDuplicatesVisible(p: PreprocessingPipeline)
    requires p.Shared() && p.df.Valid()
    modifies p.df
    ensures p.Shared() && p.GetData().Valid()
    ensures p.GetData().columns == old(p.df.columns) && p.GetData().dtypes == old(p.df.dtypes)
    ensures p.GetData().rows == if p.df.columns == [] then old(p.df.rows) else Deduplicated(old(p.df.rows))
    ensures p.duplicates.CheckDuplicates() == 0
  {
    p.duplicates.RemoveDuplicates();
  }

  /** Capping through the pipeline's handler changes the table get_data returns. */
  method CapIqrVisible(p: PreprocessingPipeline, column: string) returns (err: Option<Error>)
    requires p.Shared() && p.df.Valid()
    modifies p.df
    ensures p.Shared() && p.GetData().Valid()
    ensures CappedIqr(old(p.df.View()), column) == if err.Some? then Err(err.value) else Ok(p.GetData().View())
  {
    err := p.outliers.CapIqr(column);
  }

  /** Converting a column through the pipeline's handler changes the table get_data returns. */
  method ConvertDtypeVisible(p: PreprocessingPipeline, column: string, target: Target, co: Coercion)
    returns (err: Option<Error>)
    requires p.Shared() && p.df.Valid()
    modifies p.df
    ensures p.Shared() && p.GetData().Valid()
    ensures Converted(old(p.df.View()), column, target, co) == if err.Some? then Err(err.value) else Ok(p.GetData().View())
  {
    err := p.dtypes.ConvertDtype(column, target, co);
  }

  /** A fill through the pipeline's missing-values handler is seen through get_data, but a
      drop is not: it rebinds only the handler's own field, so get_data still returns the
      untouched object and the handler no longer shares it. */
  method HandleNullsVisible(p: PreprocessingPipeline, column: string, strategy: string)
    returns (err: Option<Error>)
    requires p.Wired() && p.df.Valid()
    modifies p.missing, p.df
    ensures p.Shared() && p.GetData().Valid()
    ensures err.Some? ==> p.Wired() && p.GetData().View() == old(p.df.View())
    ensures err.None? && strategy == "drop" ==>
      && p.GetData().View() == old(p.df.View())
      && fresh(p.missing.df) && p.missing.df != p.GetData()
      && HandledNulls(old(p.df.View()), column, strategy) == Ok(p.missing.df.View())
    ensures err.None? && strategy != "drop" ==>
      p.Wired() && HandledNulls(old(p.df.View()), column, strategy) == Ok(p.GetData().View())
  {
    err := p.missing.HandleNulls(column, strategy);
  }

  /** After a drop through the missing-values handler, removing duplicates through the
      pipeline still changes the table get_data returns: the drop is not seen there, the
      deduplication is. */
  method DropThenRemoveDuplicates(p: PreprocessingPipeline, column: string)
    requires p.Wired() && p.df.Valid() && p.df.columns != []
    modifies p.missing, p.df
    ensures p.Shared() && p.GetData().Valid()
    ensures p.GetData().columns == old(p.df.columns) && p.GetData().dtypes == old(p.df.dtypes)
    ensures p.GetData().rows == Deduplicated(old(p.df.rows))
  {
    var err := HandleNullsVisible(p, column, "drop");
    RemoveDuplicatesVisible(p);
  }

  /** After a drop, the missing-values handler keeps cleaning its own new object; none of
      it is seen through get_data. */
  method DropThenHandleNulls(p: PreprocessingPipeline, column: string, strategy: string)
    returns (err: Option<Error>)
    requires p.Wired() && p.df.Valid()
    modifies p.missing, p.df
    ensures p.Shared() && p.GetData().View() == old(p.df.View())
    ensures err.None? ==>
      var dropped := HandledNulls(old(p.df.View()), column, "drop");
      && dropped.Ok?
      && HandledNulls(dropped.value, column, strategy) == Ok(p.missing.df.View())
  {
    err := HandleNullsVisible(p, column, "drop");
    if err.None? {
      err := p.missing.HandleNulls(column, strategy);
    }
  }
}
