/**
 The names the scripts build with `'{0}_{1}'.format(...)`: value columns of the QUANT inputs,
 matrix files, per-MSOA record files and the aggregate columns of the signature table. Every name
 is parts joined by underscores; the lemmas here show that different parts give different names.
 */
module Names {
  import opened RunConfig

  datatype Mode = Car | Bus | Rail
  datatype InputType = Dij | Tobs | Tpred
  datatype Metric = Trips | ShortestRoute | TimeSpentMetric
  datatype Agg = SumAgg | AvgAgg | MaxAgg

  function ModeName(m: Mode): string {
    match m
    case Car => "car"
    case Bus => "bus"
    case Rail => "rail"
  }

  function InputName(t: InputType): string {
    match t
    case Dij => "Dij"
    case Tobs => "Tobs"
    case Tpred => "Tpred"
  }

  function MetricName(m: Metric): string {
    match m
    case Trips => "trips"
    case ShortestRoute => "shortest_route"
    case TimeSpentMetric => "time_spent"
  }

  function AggName(a: Agg): string {
    match a
    case SumAgg => "sum"
    case AvgAgg => "avg"
    case MaxAgg => "max"
  }

  function DirectionName(d: Direction): string {
    match d
    case HomeToWork => "home_to_work"
    case WorkToHome => "work_to_home"
  }

  /** `str(hardcoded_percentage_filter)` for the filter 0.01. */
  const FilterLabel: string := "0.01"

  predicate NoUnderscore(s: string) {
    forall k :: 0 <= k < |s| ==> s[k] != '_'
  }

  /** `a_b` with an underscore-free first part determines both parts. */
  lemma JoinInjective(a: string, b: string, c: string, d: string)
    requires NoUnderscore(a) && NoUnderscore(c)
    requires a + "_" + b == c + "_" + d
    ensures a == c && b == d
  {
    var s := a + "_" + b;
    assert s[|a|] == '_';
    assert (c + "_" + d)[|c|] == '_';
    assert |a| == |c|;
    assert a == s[..|a|] == c;
    assert b == s[|a| + 1..] == d;
  }

  lemma ShortNamesPlain(m: Mode, t: InputType, a: Agg)
    ensures NoUnderscore(ModeName(m)) && NoUnderscore(InputName(t)) && NoUnderscore(AggName(a))
  {
  }

  /** `value_name='{0}_{1}'.format(input_type, mode)`, the value column of a QUANT input. */
  function ValueName(t: InputType, m: Mode): string {
    InputName(t) + "_" + ModeName(m)
  }

  lemma ValueNameInjective(t: InputType, m: Mode, t': InputType, m': Mode)
    requires ValueName(t, m) == ValueName(t', m')
    ensures t == t' && m == m'
  {
    ShortNamesPlain(m, t, SumAgg);
    ShortNamesPlain(m', t', SumAgg);
    JoinInjective(InputName(t), ModeName(m), InputName(t'), ModeName(m'));
  }

  /** `'{0}_{1}_OD_matrix.ftr'.format(input_type, mode)`: the file each unfolded matrix is written to. */
  function MatrixFileName(t: InputType, m: Mode): string {
    ValueName(t, m) + "_OD_matrix.ftr"
  }

  lemma MatrixFileNameInjective(t: InputType, m: Mode, t': InputType, m': Mode)
    requires MatrixFileName(t, m) == MatrixFileName(t', m')
    ensures t == t' && m == m'
  {
    var a, b := MatrixFileName(t, m), MatrixFileName(t', m');
    assert |ValueName(t, m)| == |ValueName(t', m')|;
    assert ValueName(t, m) == a[..|a| - 14] == b[..|b| - 14] == ValueName(t', m');
    ValueNameInjective(t, m, t', m');
  }

  /** `'{0}_home_to_work'.format(MSOA)` and `'{0}_work_to_home'.format(MSOA)`: per-MSOA record files. */
  function RecordName(msoa: string, d: Direction): string {
    msoa + "_" + DirectionName(d)
  }

  /** MSOA codes hold no underscore, so every (MSOA, direction) pair has its own record. */
  lemma RecordNameInjective(msoa: string, d: Direction, msoa': string, d': Direction)
    requires NoUnderscore(msoa) && NoUnderscore(msoa')
    requires RecordName(msoa, d) == RecordName(msoa', d')
    ensures msoa == msoa' && d == d'
  {
    JoinInjective(msoa, DirectionName(d), msoa', DirectionName(d'));
    assert DirectionName(d)[0] == DirectionName(d')[0];
  }

  /** The part after the mode: `{metric}_{direction}_{filter}`. */
  function MetricTail(metric: Metric, d: Direction): string {
    MetricName(metric) + "_" + DirectionName(d) + "_" + FilterLabel
  }

  lemma {:induction false} MetricTailInjective(metric: Metric, d: Direction, metric': Metric, d': Direction)
    requires MetricTail(metric, d) == MetricTail(metric', d')
    ensures metric == metric' && d == d'
  {
    var s := MetricTail(metric, d);
    assert |s| == |MetricName(metric)| + 18;
    assert |MetricTail(metric', d')| == |MetricName(metric')| + 18;
    assert |MetricName(metric)| == |MetricName(metric')|;
    assert metric == metric';
    var n := |MetricName(metric)|;
    assert s[n + 1] == DirectionName(d)[0];
    assert MetricTail(metric', d')[n + 1] == DirectionName(d')[0];
  }

  /**
   `'{agg}_{mode}_{metric}_{direction}_{filter}'`, the aggregate columns of the signature table:
   `sum_output_name`, `avg_output_name` and `max_output_name`.
   */
  function OutputName(a: Agg, m: Mode, metric: Metric, d: Direction): string {
    AggName(a) + "_" + (ModeName(m) + "_" + MetricTail(metric, d))
  }

  /** Different (aggregate, mode, metric, direction) choices give different column names. */
  lemma OutputNameInjective(a: Agg, m: Mode, metric: Metric, d: Direction,
                            a': Agg, m': Mode, metric': Metric, d': Direction)
    requires OutputName(a, m, metric, d) == OutputName(a', m', metric', d')
    ensures a == a' && m == m' && metric == metric' && d == d'
  {
    ShortNamesPlain(m, Dij, a);
    ShortNamesPlain(m', Dij, a');
    JoinInjective(AggName(a), ModeName(m) + "_" + MetricTail(metric, d),
                  AggName(a'), ModeName(m') + "_" + MetricTail(metric', d'));
    JoinInjective(ModeName(m), MetricTail(metric, d), ModeName(m'), MetricTail(metric', d'));
    MetricTailInjective(metric, d, metric', d');
  }

  /** `'retained_percentage_of_trips_by_{0}_with_filter_{1}'.format(mode, filter)`. */
  function RetainedPercentageName(m: Mode): string {
    "retained_percentage_of_trips_by_" + ModeName(m) + "_with_filter_" + FilterLabel
  }

  /** The retained-percentage columns never clash with an aggregate column. */
  lemma RetainedPercentageNameDistinct(m: Mode, a: Agg, m': Mode, metric: Metric, d: Direction)
    ensures RetainedPercentageName(m) != OutputName(a, m', metric, d)
  {
    var r, o := RetainedPercentageName(m), OutputName(a, m', metric, d);
    assert r[0] == 'r';
    assert o[0] == AggName(a)[0];
  }

  /** The column of one mode after the outer merge of the three per-mode tables: `{col}_{mode}`. */
  function MergedName(col: string, m: Mode): string {
    col + "_" + ModeName(m)
  }
}
