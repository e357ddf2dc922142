/**
 The frame-level helpers: each one walks the columns of a weight table in order and stores the
 per-column result under the column's name, the `dict_filter[col]` / `dict_out[col]` dictionaries
 of the scripts.
 */
module Tables {
  import opened Wrappers
  import opened Seqs
  import opened Column
  import opened Ranking
  import opened ContributionFilter

  /**
   The loop `for col in df.columns: out[col] = g(df[[col]])`. Column names are origin codes and
   are unique, so every column gets its own key.
   */
  method PerColumn<S>(f: Frame, g: seq<Row> -> S) returns (m: map<string, S>)
    requires WellFormed(f) && Distinct(f.names)
    ensures m.Keys == set x | x in f.names
    ensures forall j :: 0 <= j < |f.names| ==> m[f.names[j]] == g(ColumnOf(f, j))
  {
    m := map[];
    var j := 0;
    while j < |f.names|
      invariant 0 <= j <= |f.names|
      invariant m.Keys == set x | x in f.names[..j]
      invariant forall k :: 0 <= k < j ==> f.names[k] in m && m[f.names[k]] == g(ColumnOf(f, k))
    {
      assert f.names[..j + 1] == f.names[..j] + [f.names[j]];
      m := m[f.names[j] := g(ColumnOf(f, j))];
      j := j + 1;
    }
    assert f.names[..j] == f.names;
  }

  /** `msoa_filter_absolute(df, filter_threshold)`. */
  method FilterAbsoluteTable(f: Frame, threshold: real) returns (m: map<string, Selection>)
    requires WellFormed(f) && Distinct(f.names)
    ensures m.Keys == set x | x in f.names
    ensures forall j :: 0 <= j < |f.names| ==> m[f.names[j]] == FilterAbsolute(ColumnOf(f, j), threshold)
  {
    m := PerColumn(f, (col: seq<Row>) => FilterAbsolute(col, threshold));
  }

  /**
   `msoa_filter_percentage(df, filter_threshold)`: the range check fails before any column is
   looked at, otherwise every column is filtered.
   */
  method FilterPercentageTable(f: Frame, threshold: real) returns (r: Result<map<string, Selection>, FilterError>)
    requires WellFormed(f) && Distinct(f.names)
    ensures r.Failure? <==> PercentageOutOfRange(threshold)
    ensures r.Failure? ==> r.error == NameError("absolute")
    ensures r.Success? ==> r.value.Keys == set x | x in f.names
    ensures r.Success? ==> forall j :: 0 <= j < |f.names| ==>
      FilterPercentage(ColumnOf(f, j), threshold) == Success(r.value[f.names[j]])
  {
    if PercentageOutOfRange(threshold) {
      return Failure(NameError("absolute"));
    }
    var m := PerColumn(f, (col: seq<Row>) => Summarize(SelectWhere(col, ShareAbove(threshold))));
    r := Success(m);
  }

  /** `msoa_df_creator_cumsum_abs_value(df, cut_off)`. */
  method CreateCumSumAbsValueTable(f: Frame, cutOff: bool) returns (m: map<string, Cumulative>)
    requires WellFormed(f) && Distinct(f.names)
    ensures m.Keys == set x | x in f.names
    ensures forall j :: 0 <= j < |f.names| ==> m[f.names[j]] == CreateCumSumAbsValue(ColumnOf(f, j), cutOff)
  {
    m := PerColumn(f, (col: seq<Row>) => CreateCumSumAbsValue(col, cutOff));
  }

  /** `msoa_df_creator_cumsum_percentage(df, cut_off)`. */
  method CreateCumSumPercentageTable(f: Frame, cutOff: bool) returns (m: map<string, Cumulative>)
    requires WellFormed(f) && Distinct(f.names)
    ensures m.Keys == set x | x in f.names
    ensures forall j :: 0 <= j < |f.names| ==> m[f.names[j]] == CreateCumSumPercentage(ColumnOf(f, j), cutOff)
  {
    m := PerColumn(f, (col: seq<Row>) => CreateCumSumPercentage(col, cutOff));
  }

  /**
   `msoa_filter_cumsum_percentage(df, cumulative_filter_threshold)`. A threshold outside [0, 1]
   only prints a warning, so every threshold yields a dictionary.
   */
  method FilterCumSumPercentageTable(f: Frame, c: real) returns (m: map<string, Selection>)
    requires WellFormed(f) && Distinct(f.names)
    ensures m.Keys == set x | x in f.names
    ensures forall j :: 0 <= j < |f.names| ==> m[f.names[j]] == FilterCumSumPercentage(ColumnOf(f, j), c)
  {
    m := PerColumn(f, (col: seq<Row>) => FilterCumSumPercentage(col, c));
  }
}
