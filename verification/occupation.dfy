/**
 The occupation and essential-worker figures per MSOA. The essential-worker flows list, per
 (workplace, home) pair and per mode, the number of workers in each of nine occupation groups
 (`O1`..`O9`) and how many of them are essential (`EO1`..`EO9`). They are summed per workplace
 (`Origin`) and per home (`Destination`), the three modes are merged into one table, and each
 mode's share of a group is computed per MSOA. The mean commute lengths per occupation, mapped from
 the trip-length table, are capped at a limit before their histograms are drawn.
 */
module Occupation {
  import opened Wrappers
  import opened Missing
  import opened Seqs
  import opened Names

  /** `O1`..`O9` are counts 0..8, `EO1`..`EO9` are counts 9..17. */
  const Groups: nat := 9
  const CountColumns: nat := 18

  /** One row of an essential-worker table. */
  datatype Flow = Flow(origin: string, destination: string, counts: seq<Value>)

  /** The column the table is grouped by: `Origin` (the workplace) or `Destination` (the home). */
  datatype Side = AtOrigin | AtDestination

  predicate WellFormedFlows(flows: seq<Flow>) {
    forall i :: 0 <= i < |flows| ==> |flows[i].counts| == CountColumns
  }

  function SideOf(f: Flow, side: Side): string {
    match side
    case AtOrigin => f.origin
    case AtDestination => f.destination
  }

  function OnSide(side: Side, key: string): Flow -> bool { (f: Flow) => SideOf(f, side) == key }

  /** The `c`-th count of a row. */
  function CountAt(c: nat): Flow -> Value {
    (f: Flow) => if c < |f.counts| then f.counts[c] else None
  }

  /** The group labels `groupby` produces: every key that occurs. */
  function KeysOf(flows: seq<Flow>, side: Side): set<string> {
    set i | 0 <= i < |flows| :: SideOf(flows[i], side)
  }

  /** The reference total of count `c` over the rows of group `key`, missing counts skipped. */
  function GroupTotal(flows: seq<Flow>, side: Side, key: string, c: nat): real {
    SumWhere(flows, OnSide(side, key), CountAt(c))
  }

  lemma {:induction false} SumWhereSnoc<T>(xs: seq<T>, x: T, p: T -> bool, f: T -> Value)
    ensures SumWhere(xs + [x], p, f) == SumWhere(xs, p, f) + (if p(x) then Or0(f(x)) else 0.0)
    decreases |xs|
  {
    if |xs| > 0 {
      assert (xs + [x])[1..] == xs[1..] + [x];
      SumWhereSnoc(xs[1..], x, p, f);
    }
  }

  /** The row's counts added to a group's running totals. */
  function AddCounts(acc: seq<real>, f: Flow): (r: seq<real>)
    requires |acc| == CountColumns
    ensures |r| == CountColumns
    ensures forall c :: 0 <= c < CountColumns ==> r[c] == acc[c] + Or0(CountAt(c)(f))
  {
    seq(CountColumns, c requires 0 <= c < CountColumns => acc[c] + Or0(CountAt(c)(f)))
  }

  /** The running totals after one more row: its group's totals grow by its counts. */
  function GroupStep(m: map<string, seq<real>>, f: Flow, side: Side): map<string, seq<real>>
    requires forall k :: k in m ==> |m[k]| == CountColumns
  {
    var key := SideOf(f, side);
    var acc := if key in m then m[key] else seq(CountColumns, c => 0.0);
    m[key := AddCounts(acc, f)]
  }

  /** `m` holds the group totals of `xs`. */
  predicate GroupedTotals(m: map<string, seq<real>>, xs: seq<Flow>, side: Side) {
    && m.Keys == KeysOf(xs, side)
    && (forall k :: k in m ==> |m[k]| == CountColumns)
    && (forall k, c :: k in m && 0 <= c < CountColumns ==> m[k][c] == GroupTotal(xs, side, k, c))
  }

  lemma GroupStepKeys(m: map<string, seq<real>>, xs: seq<Flow>, f: Flow, side: Side)
    requires GroupedTotals(m, xs, side)
    ensures GroupStep(m, f, side).Keys == KeysOf(xs + [f], side)
  {
    var key := SideOf(f, side);
    forall k ensures k in GroupStep(m, f, side).Keys <==> k in KeysOf(xs + [f], side) {
      if k in KeysOf(xs + [f], side) && k != key {
        var i :| 0 <= i < |xs| + 1 && SideOf((xs + [f])[i], side) == k;
        assert i < |xs| && (xs + [f])[i] == xs[i];
      }
      if k == key {
        assert SideOf((xs + [f])[|xs|], side) == k;
      } else if k in m {
        var i :| 0 <= i < |xs| && SideOf(xs[i], side) == k;
        assert (xs + [f])[i] == xs[i];
      }
    }
  }

  lemma GroupStepTotals(m: map<string, seq<real>>, xs: seq<Flow>, f: Flow, side: Side)
    requires GroupedTotals(m, xs, side)
    ensures forall k, c :: k in GroupStep(m, f, side) && 0 <= c < CountColumns ==>
      GroupStep(m, f, side)[k][c] == GroupTotal(xs + [f], side, k, c)
  {
    var key := SideOf(f, side);
    var m' := GroupStep(m, f, side);
    var acc := if key in m then m[key] else seq(CountColumns, c => 0.0);
    if key !in m {
      forall c | 0 <= c < CountColumns ensures GroupTotal(xs, side, key, c) == 0.0 {
        SumWhereNoMatch(xs, OnSide(side, key), CountAt(c));
      }
    }
    forall k, c | k in m' && 0 <= c < CountColumns
      ensures m'[k][c] == GroupTotal(xs + [f], side, k, c)
    {
      SumWhereSnoc(xs, f, OnSide(side, k), CountAt(c));
      if k == key {
        assert OnSide(side, k)(f);
        assert acc[c] == GroupTotal(xs, side, key, c);
        assert m'[k][c] == acc[c] + Or0(CountAt(c)(f));
      } else {
        assert !OnSide(side, k)(f);
        assert m'[k][c] == m[k][c];
      }
    }
  }

  /**
   `df.groupby([side])[[O1..EO9]].agg('sum')`: one entry per key that occurs, holding for every
   count column the total over the rows of that key; missing counts are skipped.
   */
  method GroupSum(flows: seq<Flow>, side: Side) returns (m: map<string, seq<real>>)
    ensures m.Keys == KeysOf(flows, side)
    ensures forall k :: k in m ==> |m[k]| == CountColumns
    ensures forall k, c :: k in m && 0 <= c < CountColumns ==> m[k][c] == GroupTotal(flows, side, k, c)
  {
    m := map[];
    var j := 0;
    while j < |flows|
      invariant 0 <= j <= |flows|
      invariant GroupedTotals(m, flows[..j], side)
    {
      assert flows[..j + 1] == flows[..j] + [flows[j]];
      GroupStepKeys(m, flows[..j], flows[j], side);
      GroupStepTotals(m, flows[..j], flows[j], side);
      m := GroupStep(m, flows[j], side);
      j := j + 1;
    }
    assert flows[..j] == flows;
  }

  /** A key that occurs in no row has total 0. */
  lemma {:induction false} SumWhereNoMatch<T>(xs: seq<T>, p: T -> bool, f: T -> Value)
    requires forall i :: 0 <= i < |xs| ==> !p(xs[i])
    ensures SumWhere(xs, p, f) == 0.0
    decreases |xs|
  {
    if |xs| > 0 {
      assert forall i :: 0 < i < |xs| ==> xs[1..][i - 1] == xs[i];
      SumWhereNoMatch(xs[1..], p, f);
    }
  }

  // ---------------------------------------------------------------------------------------------
  // Occupation totals
  // ---------------------------------------------------------------------------------------------

  /** `xs[lo] + ... + xs[hi - 1]`. */
  function RangeTotal(xs: seq<real>, lo: nat, hi: nat): real
    requires lo <= hi <= |xs|
    decreases hi - lo
  {
    if lo == hi then 0.0 else xs[lo] + RangeTotal(xs, lo + 1, hi)
  }

  /** `sum_occ`: the nine occupation groups together. */
  function SumOcc(g: seq<real>): real
    requires |g| == CountColumns
  {
    RangeTotal(g, 0, Groups)
  }

  /** `sum_occ_ess`: the nine essential groups together. */
  function SumOccEss(g: seq<real>): real
    requires |g| == CountColumns
  {
    RangeTotal(g, Groups, CountColumns)
  }

  /** A row's counts `lo..hi` added up, missing counts skipped. */
  function RowTotal(f: Flow, lo: nat, hi: nat): real
    requires lo <= hi
    decreases hi - lo
  {
    if lo == hi then 0.0 else Or0(CountAt(lo)(f)) + RowTotal(f, lo + 1, hi)
  }

  function RowTotalOf(lo: nat, hi: nat): Flow -> Value
    requires lo <= hi
  {
    (f: Flow) => Some(RowTotal(f, lo, hi))
  }

  /** The totals of count columns `lo..hi` over the rows that pass `p`, added up column by column. */
  function ColumnTotals(flows: seq<Flow>, p: Flow -> bool, lo: nat, hi: nat): real
    requires lo <= hi
    decreases hi - lo
  {
    if lo == hi then 0.0 else SumWhere(flows, p, CountAt(lo)) + ColumnTotals(flows, p, lo + 1, hi)
  }

  lemma {:induction false} ColumnTotalsStep(flows: seq<Flow>, p: Flow -> bool, lo: nat, hi: nat)
    requires lo <= hi && |flows| > 0
    ensures ColumnTotals(flows, p, lo, hi)
         == (if p(flows[0]) then RowTotal(flows[0], lo, hi) else 0.0) + ColumnTotals(flows[1..], p, lo, hi)
    decreases hi - lo
  {
    if lo < hi {
      ColumnTotalsStep(flows, p, lo + 1, hi);
    }
  }

  /** Adding up column totals is adding up the rows' own totals: the order of summation is free. */
  lemma {:induction false} ExchangeSums(flows: seq<Flow>, p: Flow -> bool, lo: nat, hi: nat)
    requires lo <= hi
    ensures ColumnTotals(flows, p, lo, hi) == SumWhere(flows, p, RowTotalOf(lo, hi))
    decreases |flows|
  {
    if |flows| == 0 {
      ColumnTotalsEmpty(flows, p, lo, hi);
    } else {
      ColumnTotalsStep(flows, p, lo, hi);
      ExchangeSums(flows[1..], p, lo, hi);
    }
  }

  lemma {:induction false} ColumnTotalsEmpty(flows: seq<Flow>, p: Flow -> bool, lo: nat, hi: nat)
    requires lo <= hi && |flows| == 0
    ensures ColumnTotals(flows, p, lo, hi) == 0.0
    decreases hi - lo
  {
    if lo < hi {
      ColumnTotalsEmpty(flows, p, lo + 1, hi);
    }
  }

  lemma {:induction false} RangeTotalIsColumnTotals(g: seq<real>, flows: seq<Flow>, side: Side, key: string, lo: nat, hi: nat)
    requires lo <= hi <= |g|
    requires forall c :: lo <= c < hi ==> g[c] == GroupTotal(flows, side, key, c)
    ensures RangeTotal(g, lo, hi) == ColumnTotals(flows, OnSide(side, key), lo, hi)
    decreases hi - lo
  {
    if lo < hi {
      RangeTotalIsColumnTotals(g, flows, side, key, lo + 1, hi);
    }
  }

  /**
   The `sum_occ` and `sum_occ_ess` of a group are the totals, over the group's rows, of each row's
   nine occupation counts and nine essential counts.
   */
  lemma GroupOccupationTotals(g: seq<real>, flows: seq<Flow>, side: Side, key: string)
    requires |g| == CountColumns
    requires forall c :: 0 <= c < CountColumns ==> g[c] == GroupTotal(flows, side, key, c)
    ensures SumOcc(g) == SumWhere(flows, OnSide(side, key), RowTotalOf(0, Groups))
    ensures SumOccEss(g) == SumWhere(flows, OnSide(side, key), RowTotalOf(Groups, CountColumns))
  {
    RangeTotalIsColumnTotals(g, flows, side, key, 0, Groups);
    ExchangeSums(flows, OnSide(side, key), 0, Groups);
    RangeTotalIsColumnTotals(g, flows, side, key, Groups, CountColumns);
    ExchangeSums(flows, OnSide(side, key), Groups, CountColumns);
  }

  // ---------------------------------------------------------------------------------------------
  // The three-mode outer merge
  // ---------------------------------------------------------------------------------------------

  function SuffixIfIn(other: seq<string>, suffix: string): string -> string {
    (c: string) => if c in other then c + suffix else c
  }

  function WithSuffix(suffix: string): string -> string { (c: string) => c + suffix }

  /**
   pandas' renaming in a merge: a column that also occurs on the other side gets the suffix, the
   others keep their names.
   */
  function Suffixed(names: seq<string>, other: seq<string>, suffix: string): seq<string> {
    Map(names, SuffixIfIn(other, suffix))
  }

  /**
   The column names after `merge(car, bus, suffixes=('', '_bus'))` and then
   `merge(that, rail, suffixes=('_car', '_rail'))`, all three tables having the columns `cols`.
   */
  function MergedColumnNames(cols: seq<string>): seq<string> {
    var first := Suffixed(cols, cols, "") + Suffixed(cols, cols, "_bus");
    Suffixed(first, cols, "_car") + Suffixed(cols, first, "_rail")
  }

  /**
   As long as no column name is another column's name with `_bus` appended, the two-step merge
   names every column of every mode `{col}_{mode}`.
   */
  lemma MergedColumnNamesSuffixed(cols: seq<string>)
    requires forall i, j :: 0 <= i < |cols| && 0 <= j < |cols| ==> cols[i] + "_bus" != cols[j]
    ensures MergedColumnNames(cols)
      == Map(cols, WithSuffix("_car")) + Map(cols, WithSuffix("_bus")) + Map(cols, WithSuffix("_rail"))
  {
    var bus := Map(cols, WithSuffix("_bus"));
    SuffixedAll(cols, cols, "");
    EmptySuffix(cols);
    SuffixedAll(cols, cols, "_bus");
    var first := cols + bus;
    SuffixedAppend(cols, bus, cols, "_car");
    SuffixedAll(cols, cols, "_car");
    forall i | 0 <= i < |bus| ensures bus[i] !in cols {
      assert bus[i] == cols[i] + "_bus";
    }
    SuffixedNone(bus, cols, "_car");
    forall i | 0 <= i < |cols| ensures cols[i] in first {
      assert first[i] == cols[i];
    }
    SuffixedAll(cols, first, "_rail");
  }

  lemma EmptySuffix(cols: seq<string>)
    ensures Map(cols, WithSuffix("")) == cols
  {
    var r := Map(cols, WithSuffix(""));
    forall i | 0 <= i < |cols| ensures r[i] == cols[i] {
      assert cols[i] + "" == cols[i];
    }
  }

  lemma SuffixedAll(names: seq<string>, other: seq<string>, suffix: string)
    requires forall i :: 0 <= i < |names| ==> names[i] in other
    ensures Suffixed(names, other, suffix) == Map(names, WithSuffix(suffix))
  {
  }

  lemma SuffixedNone(names: seq<string>, other: seq<string>, suffix: string)
    requires forall i :: 0 <= i < |names| ==> names[i] !in other
    ensures Suffixed(names, other, suffix) == names
  {
  }

  lemma SuffixedAppend(a: seq<string>, b: seq<string>, other: seq<string>, suffix: string)
    ensures Suffixed(a + b, other, suffix) == Suffixed(a, other, suffix) + Suffixed(b, other, suffix)
  {
    MapAppend(a, b, SuffixIfIn(other, suffix));
  }

  /** The merged columns of one key: each mode's values, missing when the mode lacks the key. */
  datatype MergedRow = MergedRow(car: seq<Value>, bus: seq<Value>, rail: seq<Value>)

  function Present(xs: seq<real>): (r: seq<Value>)
    ensures |r| == |xs| && forall i :: 0 <= i < |xs| ==> r[i] == Some(xs[i])
  {
    seq(|xs|, i requires 0 <= i < |xs| => Some(xs[i]))
  }

  /**
   `cells` are the merged cells of key `k` from one mode's table: that table's row when it has the
   key, all missing otherwise.
   */
  predicate MergedCells(cells: seq<Value>, t: map<string, seq<real>>, k: string, width: nat) {
    && |cells| == width
    && forall i :: 0 <= i < width ==>
         (cells[i].Some? <==> k in t) && (k in t && i < |t[k]| ==> cells[i] == Some(t[k][i]))
  }

  /** One mode's part of a merged row. */
  function ModePart(t: map<string, seq<real>>, k: string, width: nat): (r: seq<Value>)
    requires forall k :: k in t ==> |t[k]| == width
    ensures MergedCells(r, t, k, width)
  {
    if k in t then Present(t[k]) else seq(width, i => None)
  }

  /**
   `pd.merge(..., how='outer', on=side)` twice: every key of any mode is kept, and a mode without
   the key contributes missing cells.
   */
  function OuterMerge(car: map<string, seq<real>>, bus: map<string, seq<real>>, rail: map<string, seq<real>>,
                      width: nat): (m: map<string, MergedRow>)
    requires forall k :: k in car ==> |car[k]| == width
    requires forall k :: k in bus ==> |bus[k]| == width
    requires forall k :: k in rail ==> |rail[k]| == width
    ensures m.Keys == car.Keys + bus.Keys + rail.Keys
    ensures forall k :: k in m ==>
      && MergedCells(m[k].car, car, k, width)
      && MergedCells(m[k].bus, bus, k, width)
      && MergedCells(m[k].rail, rail, k, width)
  {
    map k | k in car.Keys + bus.Keys + rail.Keys ::
      MergedRow(ModePart(car, k, width), ModePart(bus, k, width), ModePart(rail, k, width))
  }

  // ---------------------------------------------------------------------------------------------
  // Mode shares and capping
  // ---------------------------------------------------------------------------------------------

  /**
   `{occ}_{mode}_msoa_share`: each mode's value over the skip-missing sum of the three modes, in
   the order car, bus, rail. All three share one denominator.
   */
  function ModeShares(row: MergedRow, c: nat): (r: seq<Value>)
    requires c < |row.car| && c < |row.bus| && c < |row.rail|
    ensures |r| == 3
    ensures var total := Sum([row.car[c], row.bus[c], row.rail[c]]);
      && r[0] == Div(row.car[c], total) && r[1] == Div(row.bus[c], total) && r[2] == Div(row.rail[c], total)
  {
    Normalize([row.car[c], row.bus[c], row.rail[c]])
  }

  /**
   Whenever the three modes do not add up to 0, the present shares add up to 1; a mode missing
   from the merge has a missing share and the others share the whole.
   */
  lemma ModeSharesSumToOne(row: MergedRow, c: nat)
    requires c < |row.car| && c < |row.bus| && c < |row.rail|
    requires Sum([row.car[c], row.bus[c], row.rail[c]]) != 0.0
    ensures Sum(ModeShares(row, c)) == 1.0
    ensures row.car[c].None? ==> ModeShares(row, c)[0].None? && Or0(ModeShares(row, c)[1]) + Or0(ModeShares(row, c)[2]) == 1.0
  {
    var xs := [row.car[c], row.bus[c], row.rail[c]];
    NormalizeSumsToOne(xs);
    var r := ModeShares(row, c);
    SumOfThree(r);
    SumOfThree(xs);
  }

  /** `residents_limit` and `workers_limit`. */
  const ResidentsLimit: real := 50.0
  const WorkersLimit: real := 50.0

  function CapAt(limit: real): Value -> Value {
    (v: Value) => if Gt(v, limit) then Some(limit) else v
  }

  /**
   `df.loc[df[col] > limit, col] = limit`: values strictly above the limit become the limit, all
   other cells, missing ones included, stay as they are.
   */
  function Clamp(xs: seq<Value>, limit: real): (r: seq<Value>)
    ensures |r| == |xs|
    ensures forall i :: 0 <= i < |xs| ==> (r[i].Some? <==> xs[i].Some?)
    ensures forall i :: 0 <= i < |xs| && r[i].Some? ==> r[i].value <= limit
    ensures forall i :: 0 <= i < |xs| && !Gt(xs[i], limit) ==> r[i] == xs[i]
    ensures forall i :: 0 <= i < |xs| && Gt(xs[i], limit) ==> r[i] == Some(limit)
  {
    Map(xs, CapAt(limit))
  }

  /** Capping twice is capping once. */
  lemma ClampIdempotent(xs: seq<Value>, limit: real)
    ensures Clamp(Clamp(xs, limit), limit) == Clamp(xs, limit)
  {
    var once := Clamp(xs, limit);
    forall i | 0 <= i < |xs| ensures Clamp(once, limit)[i] == once[i] {
      assert !Gt(once[i], limit);
    }
  }
}
