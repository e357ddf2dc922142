/**
 Reading the signature table: the home-to-work trip (or minutes) totals of the three modes become
 whole-number percentage shares per MSOA, are renamed, are laid out as ternary-plot points, and
 every MSOA is labelled by its average rail time-spent cell. A time-spent cell is the number of
 observed trips to one destination times the shortest-route minutes to it, rounded; the average
 runs over the destinations the 1% filter retains.
 */
module Signatures {
  import opened Wrappers
  import opened Missing
  import opened Rounding
  import opened RunConfig
  import opened Names
  import opened Seqs
  import opened Column
  import opened Preparation

  /** One MSOA's `sum_car_…`, `sum_bus_…` and `sum_rail_…` values. */
  datatype ModeTriple = ModeTriple(car: Value, bus: Value, rail: Value)

  function AsRow(t: ModeTriple): seq<Value> { [t.car, t.bus, t.rail] }

  /** `np.round(share * 100)` of one cell. */
  function Percent(v: Value): (r: Value)
    ensures r.Some? <==> v.Some?
    ensures r.Some? ==> -0.5 <= r.value - v.value * 100.0 <= 0.5 && r.value == r.value.Floor as real
  {
    Round0Cell(Mul(v, Some(100.0)))
  }

  /**
   `df.div(df.sum(axis=1), axis=0)` followed by `np.round(df * 100)`: every mode's value over the
   skip-missing row sum, in whole percent. A missing value, or a row summing to 0, gives a missing
   share.
   */
  function PercentShares(t: ModeTriple): (r: ModeTriple)
    ensures var total := Sum(AsRow(t));
      && (r.car.Some? <==> t.car.Some? && total != 0.0)
      && (r.bus.Some? <==> t.bus.Some? && total != 0.0)
      && (r.rail.Some? <==> t.rail.Some? && total != 0.0)
  {
    var s := Normalize(AsRow(t));
    ModeTriple(Percent(s[0]), Percent(s[1]), Percent(s[2]))
  }

  /** Every present share is the mode's value over the row sum, in percent, to the nearest whole number. */
  lemma PercentSharesNearest(t: ModeTriple)
    ensures var r, total := PercentShares(t), Sum(AsRow(t));
      && (r.car.Some? ==> -0.5 <= r.car.value - t.car.value / total * 100.0 <= 0.5)
      && (r.bus.Some? ==> -0.5 <= r.bus.value - t.bus.value / total * 100.0 <= 0.5)
      && (r.rail.Some? ==> -0.5 <= r.rail.value - t.rail.value / total * 100.0 <= 0.5)
  {
  }

  /**
   Whenever a row does not sum to 0, its whole-number shares add up to 99, 100 or 101: the shares
   before rounding add up to 1 and each rounding moves a share by at most half a percent.
   */
  lemma PercentSharesAddUp(t: ModeTriple)
    requires Sum(AsRow(t)) != 0.0
    ensures var total := Sum(AsRow(PercentShares(t)));
      99.0 <= total <= 101.0 && total == total.Floor as real
  {
    var xs := AsRow(t);
    var s := Normalize(xs);
    var r := PercentShares(t);
    assert Or0(s[0]) + Or0(s[1]) + Or0(s[2]) == 1.0 by {
      NormalizeSumsToOne(xs);
      SumOfThree(s);
    }
    assert Sum(AsRow(r)) == Or0(r.car) + Or0(r.bus) + Or0(r.rail) by {
      SumOfThree(AsRow(r));
    }
    assert r.car == Percent(s[0]) && r.bus == Percent(s[1]) && r.rail == Percent(s[2]);
    ScaleThree(Or0(s[0]), Or0(s[1]), Or0(s[2]));
    RoundingError(s[0], r.car);
    RoundingError(s[1], r.bus);
    RoundingError(s[2], r.rail);
    WholeSum(r.car, r.bus, r.rail, Or0(s[0]) * 100.0, Or0(s[1]) * 100.0, Or0(s[2]) * 100.0);
  }

  lemma ScaleThree(a: real, b: real, c: real)
    requires a + b + c == 1.0
    ensures a * 100.0 + b * 100.0 + c * 100.0 == 100.0
  {
  }

  /** Three whole numbers, each within half of its target, whose targets add up to 100. */
  lemma WholeSum(a: Value, b: Value, c: Value, x: real, y: real, z: real)
    requires a.Some? ==> a.value == a.value.Floor as real
    requires b.Some? ==> b.value == b.value.Floor as real
    requires c.Some? ==> c.value == c.value.Floor as real
    requires -0.5 <= Or0(a) - x <= 0.5 && -0.5 <= Or0(b) - y <= 0.5 && -0.5 <= Or0(c) - z <= 0.5
    requires x + y + z == 100.0
    ensures var total := Or0(a) + Or0(b) + Or0(c);
      99.0 <= total <= 101.0 && total == total.Floor as real
  {
    var n := Whole(a) + Whole(b) + Whole(c);
    assert Or0(a) + Or0(b) + Or0(c) == n as real;
  }

  lemma RoundingError(v: Value, r: Value)
    requires r == Percent(v)
    ensures -0.5 <= Or0(r) - Or0(v) * 100.0 <= 0.5
  {
  }

  /** The whole number a rounded cell holds, 0 when it is missing. */
  function Whole(r: Value): (n: int)
    requires r.Some? ==> r.value == r.value.Floor as real
    ensures Or0(r) == n as real
  {
    if r.Some? then r.value.Floor else 0
  }

  /** With non-negative values every share lies between 0 and 100 percent. */
  lemma PercentSharesWithin(t: ModeTriple)
    requires NonNegative(AsRow(t))
    ensures var r := PercentShares(t);
      && (r.car.Some? ==> 0.0 <= r.car.value <= 100.0)
      && (r.bus.Some? ==> 0.0 <= r.bus.value <= 100.0)
      && (r.rail.Some? ==> 0.0 <= r.rail.value <= 100.0)
  {
    var xs := AsRow(t);
    var s := Normalize(xs);
    NormalizeNonNegative(xs);
    ShareWithin(xs, 0);
    ShareWithin(xs, 1);
    ShareWithin(xs, 2);
  }

  lemma ShareWithin(xs: seq<Value>, i: int)
    requires |xs| == 3 && NonNegative(xs) && NonNegative(Normalize(xs)) && 0 <= i < 3
    ensures var p := Percent(Normalize(xs)[i]);
      p.Some? ==> 0.0 <= p.value <= 100.0
  {
    var v := Normalize(xs)[i];
    if v.Some? {
      ShareAtMostOne(xs, i);
      assert 0.0 <= v.value * 100.0 <= 100.0;
      RoundHalfEvenWithin(v.value * 100.0, 0, 100);
    }
  }

  /** A non-negative cell is at most the sum of its non-negative row. */
  lemma ShareAtMostOne(xs: seq<Value>, i: int)
    requires |xs| == 3 && NonNegative(xs) && 0 <= i < 3 && Normalize(xs)[i].Some?
    ensures Normalize(xs)[i].value <= 1.0
  {
    SumOfThree(xs);
    var total := Sum(xs);
    assert Or0(xs[0]) >= 0.0 && Or0(xs[1]) >= 0.0 && Or0(xs[2]) >= 0.0;
    assert xs[i].value <= total;
    assert total > 0.0;
    DivAtMost(xs[i].value, total, 1.0);
  }

  /** `share_{mode}_sum_{metric}`: the name each share column is renamed to. */
  function ShareName(m: Mode, metric: Metric): string {
    "share" + "_" + (ModeName(m) + "_" + ("sum_" + MetricName(metric)))
  }

  /** The renaming of `test_signatures.py`: each home-to-work sum column to its share name. */
  function Renamed(m: Mode, metric: Metric): (string, string) {
    (OutputName(SumAgg, m, metric, HomeToWork), ShareName(m, metric))
  }

  /** The renaming sends different columns to different names, so no share column is lost. */
  lemma ShareNameInjective(m: Mode, metric: Metric, m': Mode, metric': Metric)
    requires ShareName(m, metric) == ShareName(m', metric')
    ensures m == m' && metric == metric'
  {
    ShortNamesPlain(m, Dij, SumAgg);
    ShortNamesPlain(m', Dij, SumAgg);
    JoinInjective("share", ModeName(m) + "_" + ("sum_" + MetricName(metric)),
                  "share", ModeName(m') + "_" + ("sum_" + MetricName(metric')));
    JoinInjective(ModeName(m), "sum_" + MetricName(metric), ModeName(m'), "sum_" + MetricName(metric'));
    var a, b := "sum_" + MetricName(metric), "sum_" + MetricName(metric');
    assert MetricName(metric) == a[4..] == b[4..] == MetricName(metric');
    assert |MetricName(metric)| == |MetricName(metric')|;
  }

  /** A point of the ternary plot: (bottom, right, left) coordinates. */
  datatype Point = Point(bottom: Value, right: Value, left: Value)

  function ToPoint(t: ModeTriple): Point { Point(t.rail, t.bus, t.car) }

  /**
   The loop over `df.iterrows()`: one point per row, in row order, laid out as (rail, bus, car).
   */
  function TernaryPoints(rows: seq<ModeTriple>): (ps: seq<Point>)
    ensures |ps| == |rows|
    ensures forall i :: 0 <= i < |rows| ==>
      ps[i].bottom == rows[i].rail && ps[i].right == rows[i].bus && ps[i].left == rows[i].car
  {
    seq(|rows|, i requires 0 <= i < |rows| => ToPoint(rows[i]))
  }

  /**
   Plotting the percentage shares of MSOAs whose three modes are all present and do not add up to
   0 gives points whose coordinates add up to 100 up to rounding, as a ternary plot expects.
   */
  lemma TernaryPointsNearSimplex(rows: seq<ModeTriple>, i: int)
    requires 0 <= i < |rows|
    requires rows[i].car.Some? && rows[i].bus.Some? && rows[i].rail.Some? && Sum(AsRow(rows[i])) != 0.0
    ensures var p := TernaryPoints(Map(rows, PercentSharesOf()))[i];
      && p.bottom.Some? && p.right.Some? && p.left.Some?
      && 99.0 <= p.bottom.value + p.right.value + p.left.value <= 101.0
  {
    var r := PercentShares(rows[i]);
    PercentSharesAddUp(rows[i]);
    SumOfThree(AsRow(r));
  }

  function PercentSharesOf(): ModeTriple -> ModeTriple { (t: ModeTriple) => PercentShares(t) }

  /**
   The bound of 240 on `avg_rail_time_spent_home_to_work_0.01`. The column averages trips × minutes
   per destination, so the bound is not a bound on one journey's duration.
   */
  const RailLimit: real := 240.0

  /**
   `np.where(df['avg_rail_time_spent_home_to_work_0.01'] < 240, 'Ok', 'Not ok')`: a missing
   average compares false and is labelled 'Not ok'.
   */
  function RailSelection(avg: Value): (tag: string)
    ensures tag == "Ok" <==> avg.Some? && avg.value < RailLimit
    ensures tag == "Not ok" <==> !(avg.Some? && avg.value < RailLimit)
  {
    if Lt(avg, RailLimit) then "Ok" else "Not ok"
  }

  /**
   For the rail time-spent column of the signature table: an MSOA whose largest retained time-spent
   cell is under 240 is labelled 'Ok', and one without any present retained cell is labelled
   'Not ok'.
   */
  lemma RailSelectionOfAggregate(work: seq<Row>, keep: seq<string>)
    ensures var a := AggregateColumn(work, keep);
      && (a.max.Some? && a.max.value < RailLimit ==> RailSelection(a.avg) == "Ok")
      && ((forall i :: 0 <= i < |work| && work[i].dest in keep ==> work[i].value.None?) ==>
            RailSelection(a.avg) == "Not ok")
  {
  }
}
