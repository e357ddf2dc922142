/**
 Assembling the signature table: the 1% filter dictionaries of every mode built from the observed
 trips, and for every mode, direction and metric the per-MSOA sum, mean and maximum over the
 retained destinations, stored under `'{agg}_{mode}_{metric}_{direction}_0.01'`.
 */
module SignatureTable {
  import opened Wrappers
  import opened Missing
  import opened Seqs
  import opened Column
  import opened RunConfig
  import opened Names
  import opened ContributionFilter
  import opened Preparation
  import opened Tables

  function FilteredOf(col: seq<Row>): seq<string> { TripFilter(col).filtered }
  function RetainedOf(col: seq<Row>): real { TripFilter(col).percentageSum }

  /**
   `dict_filter_{mode}` and `dict_filter_{mode}_retained_percentage`, filled by the loop over the
   columns of the observed-trip table: one entry per origin.
   */
  method TripFilters(tobs: Frame) returns (filter: map<string, seq<string>>, retained: map<string, real>)
    requires WellFormed(tobs) && Distinct(tobs.names)
    ensures filter.Keys == retained.Keys == set x | x in tobs.names
    ensures forall j :: 0 <= j < |tobs.names| ==>
      && filter[tobs.names[j]] == TripFilter(ColumnOf(tobs, j)).filtered
      && retained[tobs.names[j]] == TripFilter(ColumnOf(tobs, j)).percentageSum
  {
    filter := PerColumn(tobs, FilteredOf);
    retained := PerColumn(tobs, RetainedOf);
  }

  /** The error `dict_filter[col]` raises for a column the filter dictionary lacks. */
  datatype KeyError = KeyError(key: string)

  /** The position of the first column without a filter entry, if there is one. */
  function FirstMissing(names: seq<string>, filter: map<string, seq<string>>): (r: Option<nat>)
    ensures r.None? <==> forall j :: 0 <= j < |names| ==> names[j] in filter
    ensures r.Some? ==>
      && r.value < |names| && names[r.value] !in filter
      && (forall j :: 0 <= j < r.value ==> names[j] in filter)
  {
    if |names| == 0 then None
    else if names[0] !in filter then Some(0)
    else
      var r := FirstMissing(names[1..], filter);
      assert forall j :: 0 < j < |names| ==> names[j] == names[1..][j - 1];
      if r.None? then None else Some(r.value + 1)
  }

  /**
   The loop `for col in work_matrix.columns` of the aggregation: for every column (origin) its
   aggregates over the destinations listed in `filter[col]`, in column order. The first column
   without a filter entry raises before the results are stored.
   */
  function AggregateMatrix(work: Frame, filter: map<string, seq<string>>): (r: Result<seq<Aggregate>, KeyError>)
    requires WellFormed(work)
    ensures r.Failure? <==> exists j :: 0 <= j < |work.names| && work.names[j] !in filter
    ensures r.Failure? ==> r.error.key !in filter && r.error.key in work.names
    ensures r.Success? ==> |r.value| == |work.names| && forall j :: 0 <= j < |work.names| ==>
      r.value[j] == AggregateColumn(ColumnOf(work, j), filter[work.names[j]])
  {
    match FirstMissing(work.names, filter)
    case Some(j) => Failure(KeyError(work.names[j]))
    case None =>
      Success(seq(|work.names|, j requires 0 <= j < |work.names| =>
        AggregateColumn(ColumnOf(work, j), filter[work.names[j]])))
  }

  /** The matrices of one mode: observed trips, shortest-route minutes and minutes spent. */
  datatype ModeMatrices = ModeMatrices(tobs: Frame, dij: Frame, timeSpent: Frame)

  /** `work_matrix` for a metric. */
  function WorkMatrix(mm: ModeMatrices, metric: Metric): Frame {
    match metric
    case Trips => mm.tobs
    case ShortestRoute => mm.dij
    case TimeSpentMetric => mm.timeSpent
  }

  /**
   The aggregate trip column of a mode counts, for every origin, exactly the trips its 1% filter
   retained.
   */
  lemma TripAggregateIsRetained(mm: ModeMatrices, filter: map<string, seq<string>>, j: int)
    requires WellFormed(mm.tobs) && 0 <= j < |mm.tobs.names|
    requires mm.tobs.names[j] in filter && filter[mm.tobs.names[j]] == TripFilter(ColumnOf(mm.tobs, j)).filtered
    requires Distinct(mm.tobs.index)
    ensures var r := AggregateMatrix(WorkMatrix(mm, Trips), filter);
      r.Success? ==> r.value[j].sum == TripFilter(ColumnOf(mm.tobs, j)).commuters
  {
    var col := ColumnOf(mm.tobs, j);
    assert Map(col, RowDest) == mm.tobs.index;
    TripSumIsRetainedCommuters(col);
  }

  // ---------------------------------------------------------------------------------------------
  // The column names of the table
  // ---------------------------------------------------------------------------------------------

  /** Which aggregate column: aggregate, mode, metric and direction. */
  datatype ColumnKey = ColumnKey(agg: Agg, mode: Mode, metric: Metric, direction: Direction)

  function KeyName(k: ColumnKey): string { OutputName(k.agg, k.mode, k.metric, k.direction) }

  /** The three columns of one (mode, metric, direction) block, in the order sum, avg, max. */
  function Block(m: Mode, metric: Metric, d: Direction): seq<ColumnKey> {
    [ColumnKey(SumAgg, m, metric, d), ColumnKey(AvgAgg, m, metric, d), ColumnKey(MaxAgg, m, metric, d)]
  }

  function MetricBlocks(m: Mode, metrics: seq<Metric>, d: Direction): seq<ColumnKey> {
    if |metrics| == 0 then [] else Block(m, metrics[0], d) + MetricBlocks(m, metrics[1..], d)
  }

  /** A direction contributes columns only when it is home-to-work; work-to-home is not aggregated. */
  function DirectionBlocks(m: Mode, directions: seq<Direction>, metrics: seq<Metric>): seq<ColumnKey> {
    if |directions| == 0 then []
    else if directions[0] == HomeToWork then MetricBlocks(m, metrics, HomeToWork) + DirectionBlocks(m, directions[1..], metrics)
    else DirectionBlocks(m, directions[1..], metrics)
  }

  /** The aggregate columns added by the loops over modes, directions and metrics, in that order. */
  function AggregateColumnKeys(modes: seq<Mode>, directions: seq<Direction>, metrics: seq<Metric>): seq<ColumnKey> {
    if |modes| == 0 then []
    else DirectionBlocks(modes[0], directions, metrics) + AggregateColumnKeys(modes[1..], directions, metrics)
  }

  function AggregateColumnNames(modes: seq<Mode>, directions: seq<Direction>, metrics: seq<Metric>): seq<string> {
    Map(AggregateColumnKeys(modes, directions, metrics), KeyName)
  }

  lemma BlockMembers(m: Mode, metric: Metric, d: Direction, k: ColumnKey)
    ensures k in Block(m, metric, d) <==> k.mode == m && k.metric == metric && k.direction == d
  {
    if k.mode == m && k.metric == metric && k.direction == d {
      match k.agg
      case SumAgg => assert k == Block(m, metric, d)[0];
      case AvgAgg => assert k == Block(m, metric, d)[1];
      case MaxAgg => assert k == Block(m, metric, d)[2];
    }
  }

  lemma {:induction false} MetricBlocksMembers(m: Mode, metrics: seq<Metric>, d: Direction, k: ColumnKey)
    ensures k in MetricBlocks(m, metrics, d) <==> k.mode == m && k.metric in metrics && k.direction == d
    decreases |metrics|
  {
    if |metrics| > 0 {
      MetricBlocksMembers(m, metrics[1..], d, k);
      assert k.metric in metrics <==> k.metric == metrics[0] || k.metric in metrics[1..];
      BlockMembers(m, metrics[0], d, k);
    }
  }

  lemma {:induction false} DirectionBlocksMembers(m: Mode, directions: seq<Direction>, metrics: seq<Metric>, k: ColumnKey)
    ensures k in DirectionBlocks(m, directions, metrics) <==>
      HomeToWork in directions && k.mode == m && k.metric in metrics && k.direction == HomeToWork
    decreases |directions|
  {
    if |directions| > 0 {
      DirectionBlocksMembers(m, directions[1..], metrics, k);
      MetricBlocksMembers(m, metrics, HomeToWork, k);
      assert HomeToWork in directions <==> directions[0] == HomeToWork || HomeToWork in directions[1..];
    }
  }

  /**
   A column is produced exactly when its direction is home-to-work, that direction is selected,
   and its mode and metric are selected.
   */
  lemma {:induction false} AggregateColumnKeysMembers(modes: seq<Mode>, directions: seq<Direction>, metrics: seq<Metric>, k: ColumnKey)
    ensures k in AggregateColumnKeys(modes, directions, metrics) <==>
      HomeToWork in directions && k.mode in modes && k.metric in metrics && k.direction == HomeToWork
    decreases |modes|
  {
    if |modes| > 0 {
      AggregateColumnKeysMembers(modes[1..], directions, metrics, k);
      DirectionBlocksMembers(modes[0], directions, metrics, k);
      assert k.mode in modes <==> k.mode == modes[0] || k.mode in modes[1..];
    }
  }

  lemma DistinctConcat<T>(a: seq<T>, b: seq<T>)
    requires Distinct(a) && Distinct(b)
    requires forall x :: x in a ==> x !in b
    ensures Distinct(a + b)
  {
    forall i, j | 0 <= i < j < |a + b| ensures (a + b)[i] != (a + b)[j] {
      if i < |a| && j >= |a| {
        assert (a + b)[i] in a && (a + b)[j] == b[j - |a|];
      }
    }
  }

  lemma {:induction false} MetricBlocksDistinct(m: Mode, metrics: seq<Metric>, d: Direction)
    requires Distinct(metrics)
    ensures Distinct(MetricBlocks(m, metrics, d))
    decreases |metrics|
  {
    if |metrics| > 0 {
      assert Distinct(metrics[1..]) by {
        forall i, j | 0 <= i < j < |metrics| - 1 ensures metrics[1..][i] != metrics[1..][j] {
          assert metrics[1..][i] == metrics[i + 1] && metrics[1..][j] == metrics[j + 1];
        }
      }
      MetricBlocksDistinct(m, metrics[1..], d);
      forall k | k in Block(m, metrics[0], d) ensures k !in MetricBlocks(m, metrics[1..], d) {
        MetricBlocksMembers(m, metrics[1..], d, k);
      }
      DistinctConcat(Block(m, metrics[0], d), MetricBlocks(m, metrics[1..], d));
    }
  }

  lemma {:induction false} DirectionBlocksDistinct(m: Mode, directions: seq<Direction>, metrics: seq<Metric>)
    requires Distinct(directions) && Distinct(metrics)
    ensures Distinct(DirectionBlocks(m, directions, metrics))
    decreases |directions|
  {
    if |directions| > 0 {
      assert Distinct(directions[1..]) by {
        forall i, j | 0 <= i < j < |directions| - 1 ensures directions[1..][i] != directions[1..][j] {
          assert directions[1..][i] == directions[i + 1] && directions[1..][j] == directions[j + 1];
        }
      }
      DirectionBlocksDistinct(m, directions[1..], metrics);
      if directions[0] == HomeToWork {
        MetricBlocksDistinct(m, metrics, HomeToWork);
        forall k | k in MetricBlocks(m, metrics, HomeToWork) ensures k !in DirectionBlocks(m, directions[1..], metrics) {
          DirectionBlocksMembers(m, directions[1..], metrics, k);
        }
        DistinctConcat(MetricBlocks(m, metrics, HomeToWork), DirectionBlocks(m, directions[1..], metrics));
      }
    }
  }

  lemma {:induction false} AggregateColumnKeysDistinct(modes: seq<Mode>, directions: seq<Direction>, metrics: seq<Metric>)
    requires Distinct(modes) && Distinct(directions) && Distinct(metrics)
    ensures Distinct(AggregateColumnKeys(modes, directions, metrics))
    decreases |modes|
  {
    if |modes| > 0 {
      assert Distinct(modes[1..]) by {
        forall i, j | 0 <= i < j < |modes| - 1 ensures modes[1..][i] != modes[1..][j] {
          assert modes[1..][i] == modes[i + 1] && modes[1..][j] == modes[j + 1];
        }
      }
      AggregateColumnKeysDistinct(modes[1..], directions, metrics);
      DirectionBlocksDistinct(modes[0], directions, metrics);
      forall k | k in DirectionBlocks(modes[0], directions, metrics)
        ensures k !in AggregateColumnKeys(modes[1..], directions, metrics)
      {
        DirectionBlocksMembers(modes[0], directions, metrics, k);
        AggregateColumnKeysMembers(modes[1..], directions, metrics, k);
      }
      DistinctConcat(DirectionBlocks(modes[0], directions, metrics), AggregateColumnKeys(modes[1..], directions, metrics));
    }
  }

  /**
   The names of the aggregate columns: a name is produced exactly for a selected mode and metric
   in the home-to-work direction, and with repetition-free selections no two blocks write the same
   column.
   */
  lemma AggregateColumnNamesShape(modes: seq<Mode>, directions: seq<Direction>, metrics: seq<Metric>,
                                  a: Agg, m: Mode, metric: Metric, d: Direction)
    ensures OutputName(a, m, metric, d) in AggregateColumnNames(modes, directions, metrics) <==>
      HomeToWork in directions && m in modes && metric in metrics && d == HomeToWork
    ensures Distinct(modes) && Distinct(directions) && Distinct(metrics) ==>
      Distinct(AggregateColumnNames(modes, directions, metrics))
  {
    var keys := AggregateColumnKeys(modes, directions, metrics);
    var names := AggregateColumnNames(modes, directions, metrics);
    var k := ColumnKey(a, m, metric, d);
    AggregateColumnKeysMembers(modes, directions, metrics, k);
    if OutputName(a, m, metric, d) in names {
      var i :| 0 <= i < |names| && names[i] == OutputName(a, m, metric, d);
      OutputNameInjective(keys[i].agg, keys[i].mode, keys[i].metric, keys[i].direction, a, m, metric, d);
      assert keys[i] == k;
    }
    if k in keys {
      var i :| 0 <= i < |keys| && keys[i] == k;
      assert names[i] == KeyName(k);
    }
    if Distinct(modes) && Distinct(directions) && Distinct(metrics) {
      AggregateColumnKeysDistinct(modes, directions, metrics);
      forall i, j | 0 <= i < j < |names| ensures names[i] != names[j] {
        if names[i] == names[j] {
          OutputNameInjective(keys[i].agg, keys[i].mode, keys[i].metric, keys[i].direction,
                              keys[j].agg, keys[j].mode, keys[j].metric, keys[j].direction);
        }
      }
    }
  }
}
