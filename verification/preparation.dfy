/**
 The signature preparation for the older input files: drop the Scottish MSOAs from the observed-trip
 and distance tables, build the minutes-spent table, keep for every origin only the destinations
 that carry more than 1% of its trips, and aggregate every metric over those destinations.
 */
module Preparation {
  import opened Wrappers
  import opened Missing
  import opened Rounding
  import opened Seqs
  import opened Column
  import opened ContributionFilter

  /** `hardcoded_percentage_filter`: a destination must carry more than this share of an origin's trips. */
  const PercentageFilter: real := 0.01

  // ---------------------------------------------------------------------------------------------
  // Removing Scotland
  // ---------------------------------------------------------------------------------------------

  /** `str.contains('S0', case=True)`: the two characters 'S', '0' occur next to each other somewhere. */
  predicate ContainsS0(code: string)
    decreases |code|
  {
    |code| >= 2 && ((code[0] == 'S' && code[1] == '0') || ContainsS0(code[1..]))
  }

  lemma {:induction false} ContainsS0Iff(code: string)
    ensures ContainsS0(code) <==> exists k :: 0 <= k < |code| - 1 && code[k] == 'S' && code[k + 1] == '0'
    decreases |code|
  {
    if |code| >= 2 {
      ContainsS0Iff(code[1..]);
      if ContainsS0(code[1..]) {
        var k :| 0 <= k < |code| - 2 && code[1..][k] == 'S' && code[1..][k + 1] == '0';
        assert code[k + 1] == 'S' && code[k + 2] == '0';
      }
      if exists k :: 0 <= k < |code| - 1 && code[k] == 'S' && code[k + 1] == '0' {
        var k :| 0 <= k < |code| - 1 && code[k] == 'S' && code[k + 1] == '0';
        if k > 0 {
          assert code[1..][k - 1] == 'S' && code[1..][k] == '0';
        }
      }
    }
  }

  function NotScottish(code: string): bool { !ContainsS0(code) }

  /** `df_names_without_scotland`: the codes in which 'S0' does not occur, in their order. */
  function RemoveScotland(codes: seq<string>): (r: seq<string>)
    ensures IsSubsequence(r, codes)
    ensures forall i :: 0 <= i < |r| ==> !ContainsS0(r[i])
    ensures forall i :: 0 <= i < |codes| && !ContainsS0(codes[i]) ==> codes[i] in r
  {
    var r := Keep(codes, NotScottish);
    KeepIsSubsequence(codes, NotScottish);
    forall i | 0 <= i < |codes| && !ContainsS0(codes[i]) ensures codes[i] in r {
      KeepComplete(codes, NotScottish, i);
    }
    r
  }

  /** A code without the letter 'S' is not Scottish. */
  lemma {:induction false} NoLetterS(code: string)
    requires forall k :: 0 <= k < |code| ==> code[k] != 'S'
    ensures !ContainsS0(code)
    decreases |code|
  {
    if |code| >= 2 {
      assert forall k :: 0 <= k < |code| - 1 ==> code[1..][k] == code[k + 1];
      NoLetterS(code[1..]);
    }
  }

  // ---------------------------------------------------------------------------------------------
  // Selecting labels on both axes
  // ---------------------------------------------------------------------------------------------

  function InLabels(labels: seq<string>): string -> bool { (x: string) => x in labels }

  /** The position of a label in a list of labels. */
  function IndexOf(labels: seq<string>, x: string): (k: int)
    requires x in labels
    ensures 0 <= k < |labels| && labels[k] == x
  {
    if labels[0] == x then 0 else 1 + IndexOf(labels[1..], x)
  }

  /** The two axes of a table. */
  datatype Axis = Rows | Columns

  /** pandas' `ValueError` from `reindex` on an axis that repeats a label. */
  datatype ReindexError = DuplicateAxis(axis: Axis)

  /**
   `filter(items=items)` reindexes an axis to the listed labels the axis has, in list order.
   `reindex` refuses an axis that repeats a label, unless the target is that axis itself or empty.
   */
  predicate ReindexRefuses(labels: seq<string>, items: seq<string>) {
    var target := Keep(items, InLabels(labels));
    !Distinct(labels) && target != labels && |target| > 0
  }

  /**
   The original position `reindex` reads for the `k`-th target label: the same position when the
   target is the axis itself, otherwise the label's position on the axis.
   */
  function SourcePos(labels: seq<string>, target: seq<string>, k: int): (p: int)
    requires 0 <= k < |target| && target[k] in labels
    ensures 0 <= p < |labels| && labels[p] == target[k]
  {
    if target == labels then k else IndexOf(labels, target[k])
  }

  /**
   `df.filter(items=items, axis=0).filter(items=items, axis=1)`: the rows and the columns whose
   labels are listed, in the order of the list, each cell taken from its original position. The
   row filter runs first, so a refused row axis is the error reported. Without repeated labels
   the selection always succeeds and reads every label at its one position; a selection that
   keeps both axes as they are returns the table itself, repeated labels included.
   */
  function SelectLabels(f: Frame, items: seq<string>): (r: Result<Frame, ReindexError>)
    requires WellFormed(f)
    ensures r.Failure? <==> ReindexRefuses(f.index, items) || ReindexRefuses(f.names, items)
    ensures r.Failure? ==> r.error == DuplicateAxis(if ReindexRefuses(f.index, items) then Rows else Columns)
    ensures Distinct(f.index) && Distinct(f.names) ==> r.Success?
    ensures Keep(items, InLabels(f.index)) == f.index && Keep(items, InLabels(f.names)) == f.names ==>
      r == Success(f)
    ensures r.Success? ==> WellFormed(r.value)
    ensures r.Success? ==> r.value.index == Keep(items, InLabels(f.index))
    ensures r.Success? ==> r.value.names == Keep(items, InLabels(f.names))
    ensures r.Success? ==> forall i :: 0 <= i < |r.value.index| ==> r.value.index[i] in f.index
    ensures r.Success? ==> forall j :: 0 <= j < |r.value.names| ==> r.value.names[j] in f.names
    ensures r.Success? ==> forall j, i :: 0 <= j < |r.value.names| && 0 <= i < |r.value.index| ==>
      r.value.cells[j][i] == f.cells[SourcePos(f.names, r.value.names, j)][SourcePos(f.index, r.value.index, i)]
    ensures r.Success? && Distinct(f.index) && Distinct(f.names) ==>
      forall j, i :: 0 <= j < |r.value.names| && 0 <= i < |r.value.index| ==>
        r.value.cells[j][i] == f.cells[IndexOf(f.names, r.value.names[j])][IndexOf(f.index, r.value.index[i])]
  {
    var index := Keep(items, InLabels(f.index));
    var names := Keep(items, InLabels(f.names));
    if ReindexRefuses(f.index, items) then
      Failure(DuplicateAxis(Rows))
    else if ReindexRefuses(f.names, items) then
      Failure(DuplicateAxis(Columns))
    else
      ReindexedIdentity(f, index, names);
      ReindexedDistinct(f, index, names);
      Success(Reindexed(f, index, names))
  }

  /** The table on the given row and column labels, each cell read at its source position. */
  function Reindexed(f: Frame, index: seq<string>, names: seq<string>): (g: Frame)
    requires WellFormed(f)
    requires forall i :: 0 <= i < |index| ==> index[i] in f.index
    requires forall j :: 0 <= j < |names| ==> names[j] in f.names
    ensures WellFormed(g) && g.index == index && g.names == names
    ensures forall j, i :: 0 <= j < |names| && 0 <= i < |index| ==>
      g.cells[j][i] == f.cells[SourcePos(f.names, names, j)][SourcePos(f.index, index, i)]
  {
    Frame(index, names, seq(|names|, j requires 0 <= j < |names| =>
      seq(|index|, i requires 0 <= i < |index| =>
        f.cells[SourcePos(f.names, names, j)][SourcePos(f.index, index, i)])))
  }

  /** Reindexing to the table's own labels gives the table back. */
  lemma ReindexedIdentity(f: Frame, index: seq<string>, names: seq<string>)
    requires WellFormed(f)
    requires forall i :: 0 <= i < |index| ==> index[i] in f.index
    requires forall j :: 0 <= j < |names| ==> names[j] in f.names
    ensures index == f.index && names == f.names ==> Reindexed(f, index, names) == f
  {
    if index == f.index && names == f.names {
      var g := Reindexed(f, index, names);
      forall j | 0 <= j < |g.cells| ensures g.cells[j] == f.cells[j] {
        assert forall i :: 0 <= i < |index| ==> g.cells[j][i] == f.cells[j][i];
      }
    }
  }

  /** On axes without repeated labels every label is read at its one position. */
  lemma ReindexedDistinct(f: Frame, index: seq<string>, names: seq<string>)
    requires WellFormed(f)
    requires forall i :: 0 <= i < |index| ==> index[i] in f.index
    requires forall j :: 0 <= j < |names| ==> names[j] in f.names
    ensures Distinct(f.index) && Distinct(f.names) ==>
      forall j, i :: 0 <= j < |names| && 0 <= i < |index| ==>
        Reindexed(f, index, names).cells[j][i] == f.cells[IndexOf(f.names, names[j])][IndexOf(f.index, index[i])]
  {
    if Distinct(f.index) && Distinct(f.names) {
      forall j | 0 <= j < |names| ensures SourcePos(f.names, names, j) == IndexOf(f.names, names[j]) {
        SourcePosDistinct(f.names, names, j);
      }
      forall i | 0 <= i < |index| ensures SourcePos(f.index, index, i) == IndexOf(f.index, index[i]) {
        SourcePosDistinct(f.index, index, i);
      }
    }
  }

  /** On an axis without repeated labels the source position is the label's position. */
  lemma SourcePosDistinct(labels: seq<string>, target: seq<string>, k: int)
    requires Distinct(labels) && 0 <= k < |target| && target[k] in labels
    ensures SourcePos(labels, target, k) == IndexOf(labels, target[k])
  {
    if target == labels {
      DistinctIndexOf(labels, k);
    }
  }

  /**
   Selecting the non-Scottish codes leaves no Scottish label on either axis, and every listed
   non-Scottish label the table had is still there. A table without repeated labels always
   admits the selection.
   */
  lemma {:induction false} SelectWithoutScotland(f: Frame, codes: seq<string>)
    requires WellFormed(f)
    ensures Distinct(f.index) && Distinct(f.names) ==> SelectLabels(f, RemoveScotland(codes)).Success?
    ensures var r := SelectLabels(f, RemoveScotland(codes)); r.Success? ==>
      var g := r.value;
      && (forall i :: 0 <= i < |g.index| ==> !ContainsS0(g.index[i]) && g.index[i] in f.index)
      && (forall j :: 0 <= j < |g.names| ==> !ContainsS0(g.names[j]) && g.names[j] in f.names)
      && (forall x :: x in codes && x in f.index && !ContainsS0(x) ==> x in g.index)
      && (forall x :: x in codes && x in f.names && !ContainsS0(x) ==> x in g.names)
  {
    var items := RemoveScotland(codes);
    var r := SelectLabels(f, items);
    if r.Success? {
      var g := r.value;
      forall i | 0 <= i < |g.index| ensures !ContainsS0(g.index[i]) && g.index[i] in f.index {
        KeepFrom(items, InLabels(f.index), g.index[i]);
      }
      forall j | 0 <= j < |g.names| ensures !ContainsS0(g.names[j]) && g.names[j] in f.names {
        KeepFrom(items, InLabels(f.names), g.names[j]);
      }
      forall x | x in codes && x in f.index && !ContainsS0(x) ensures x in g.index {
        var k :| 0 <= k < |items| && items[k] == x;
        KeepComplete(items, InLabels(f.index), k);
      }
      forall x | x in codes && x in f.names && !ContainsS0(x) ensures x in g.names {
        var k :| 0 <= k < |items| && items[k] == x;
        KeepComplete(items, InLabels(f.names), k);
      }
    }
  }

  // ---------------------------------------------------------------------------------------------
  // Minutes spent
  // ---------------------------------------------------------------------------------------------

  /** The cell of `f` at row label `r` and column label `c`; missing when `f` lacks either label. */
  function CellAt(f: Frame, r: string, c: string): Value
    requires WellFormed(f)
  {
    if r in f.index && c in f.names then f.cells[IndexOf(f.names, c)][IndexOf(f.index, r)] else None
  }

  function NotIn(labels: seq<string>): string -> bool { (x: string) => x !in labels }

  /**
   The labels of an outer alignment: those of `a`, then those of `b` that `a` lacks. pandas orders
   the union differently (sorted) when the two label lists differ; only membership is modelled.
   */
  function LabelUnion(a: seq<string>, b: seq<string>): (u: seq<string>)
    ensures forall x :: x in u <==> x in a || x in b
  {
    var extra := Keep(b, NotIn(a));
    forall x | x in extra ensures x in b {
      KeepFrom(b, NotIn(a), x);
    }
    forall k | 0 <= k < |b| && b[k] !in a ensures b[k] in extra {
      KeepComplete(b, NotIn(a), k);
    }
    a + extra
  }

  /**
   `np.round(df_Tobs * df_dij, decimals=0)`: pandas aligns the two tables by label, so the result
   has every row and column label of either table, and the cell at a pair of labels is the
   observed trips times the shortest-route minutes at those labels, rounded to whole minutes. A
   pair one table lacks, or a missing factor, leaves the cell missing.
   */
  function TimeSpent(tobs: Frame, dij: Frame): (t: Frame)
    requires WellFormed(tobs) && WellFormed(dij)
    ensures WellFormed(t)
    ensures forall x :: x in t.index <==> x in tobs.index || x in dij.index
    ensures forall x :: x in t.names <==> x in tobs.names || x in dij.names
    ensures forall j, i :: 0 <= j < |t.names| && 0 <= i < |t.index| ==>
      var a, b := CellAt(tobs, t.index[i], t.names[j]), CellAt(dij, t.index[i], t.names[j]);
      && (t.cells[j][i].Some? <==> a.Some? && b.Some?)
      && (t.cells[j][i].Some? ==>
            && -0.5 <= t.cells[j][i].value - a.value * b.value <= 0.5
            && t.cells[j][i].value == t.cells[j][i].value.Floor as real)
  {
    var index := LabelUnion(tobs.index, dij.index);
    var names := LabelUnion(tobs.names, dij.names);
    var cells := seq(|names|, j requires 0 <= j < |names| =>
      seq(|index|, i requires 0 <= i < |index| =>
        Round0Cell(Mul(CellAt(tobs, index[i], names[j]), CellAt(dij, index[i], names[j])))));
    Frame(index, names, cells)
  }

  /**
   When both tables carry the same distinct labels in the same order, the alignment is cell by
   cell: the labels stay as they are and every cell is the rounded product of the two cells at the
   same position.
   */
  lemma TimeSpentSameLabels(tobs: Frame, dij: Frame)
    requires WellFormed(tobs) && WellFormed(dij)
    requires tobs.index == dij.index && tobs.names == dij.names
    requires Distinct(tobs.index) && Distinct(tobs.names)
    ensures var t := TimeSpent(tobs, dij);
      && t.index == tobs.index && t.names == tobs.names
      && forall j, i :: 0 <= j < |t.names| && 0 <= i < |t.index| ==>
           t.cells[j][i] == Round0Cell(Mul(tobs.cells[j][i], dij.cells[j][i]))
  {
    var t := TimeSpent(tobs, dij);
    KeepNone(dij.index, NotIn(tobs.index));
    KeepNone(dij.names, NotIn(tobs.names));
    forall j, i | 0 <= j < |t.names| && 0 <= i < |t.index|
      ensures t.cells[j][i] == Round0Cell(Mul(tobs.cells[j][i], dij.cells[j][i]))
    {
      DistinctIndexOf(tobs.index, i);
      DistinctIndexOf(tobs.names, j);
    }
  }

  /** In a list without repetitions a label's position is where it stands. */
  lemma DistinctIndexOf(labels: seq<string>, k: int)
    requires Distinct(labels) && 0 <= k < |labels|
    ensures IndexOf(labels, labels[k]) == k
  {
    var m := IndexOf(labels, labels[k]);
    assert labels[m] == labels[k];
  }

  // ---------------------------------------------------------------------------------------------
  // The 1% trip filter
  // ---------------------------------------------------------------------------------------------

  /**
   `dict_filter_{mode}[col]` and `dict_filter_{mode}_retained_percentage[col]`: the destinations
   carrying more than 1% of the origin's trips, and the share they carry in percent to one decimal.
   It is the percentage helper at threshold 0.01, and for trip counts the retained percentage is
   a percentage.
   */
  function TripFilter(col: seq<Row>): (s: Selection)
    ensures FilterPercentage(col, PercentageFilter) == Success(s)
    ensures NonNegativeColumn(col) ==> 0.0 <= s.percentageSum <= 100.0
  {
    var s := Summarize(SelectWhere(col, ShareAbove(PercentageFilter)));
    // Both branches give the same selection; the first only brings `RetainedShareWithin` into scope.
    if NonNegativeColumn(col) then
      RetainedShareWithin(col, ShareAbove(PercentageFilter));
      s
    else
      s
  }

  /** With non-negative weights, the shares kept by any row-wise rule add up to between 0 and 1. */
  lemma {:induction false} RetainedShareWithin(col: seq<Row>, p: Entry -> bool)
    requires NonNegativeColumn(col)
    ensures 0.0 <= Sum(Map(Keep(WithShares(col), p), EntryShare)) <= 1.0
    ensures 0.0 <= Summarize(Keep(WithShares(col), p)).percentageSum <= 100.0
  {
    var ws := WithShares(col);
    var values := Map(col, RowValue);
    var shares := Map(ws, EntryShare);
    assert NonNegative(values);
    NormalizeNonNegative(values);
    assert NonNegative(shares);
    SumKeep(ws, p, EntryShare);
    SumWhereAtMost(ws, p, EntryShare);
    SumWhereAtLeast(ws, p, EntryShare);
    if Sum(values) != 0.0 {
      NormalizeSumsToOne(values);
    } else {
      NormalizeZeroTotal(values);
      SumAllMissing(shares);
    }
    Round1Within(Sum(Map(Keep(ws, p), EntryShare)) * 100.0);
  }

  /** For non-negative `f` the filtered sum is non-negative. */
  lemma {:induction false} SumWhereAtLeast<T>(xs: seq<T>, p: T -> bool, f: T -> Value)
    requires NonNegative(Map(xs, f))
    ensures SumWhere(xs, p, f) >= 0.0
    decreases |xs|
  {
    if |xs| > 0 {
      assert Map(xs, f)[0] == f(xs[0]);
      assert forall i :: 0 <= i < |xs| - 1 ==> Map(xs[1..], f)[i] == Map(xs, f)[i + 1];
      SumWhereAtLeast(xs[1..], p, f);
    }
  }

  // ---------------------------------------------------------------------------------------------
  // Aggregation over the retained destinations
  // ---------------------------------------------------------------------------------------------

  /** The three aggregates stored per origin and metric. */
  datatype Aggregate = Aggregate(sum: real, avg: Value, max: Value)

  function RowIn(keep: seq<string>): Row -> bool { (r: Row) => r.dest in keep }

  /**
   `df_tussen[df_tussen.index.isin(dict_filter[col])]` followed by `sum()`, `mean()` and `max()`:
   the sum skips missing cells and is 0 over nothing; mean and max are missing when no cell is
   present; the mean is `Mean` of the retained cells (their sum over their number of present
   cells) and never exceeds the maximum, which is one of the retained cells.
   */
  function AggregateColumn(work: seq<Row>, keep: seq<string>): (a: Aggregate)
    ensures a.sum == SumWhere(work, RowIn(keep), RowValue)
    ensures a.avg.Some? <==> a.max.Some?
    ensures a.max.None? <==> forall i :: 0 <= i < |work| && work[i].dest in keep ==> work[i].value.None?
    ensures a.max.Some? ==> forall i :: 0 <= i < |work| && work[i].dest in keep && work[i].value.Some? ==>
      work[i].value.value <= a.max.value
    ensures a.max.Some? ==> exists i :: 0 <= i < |work| && work[i].dest in keep && work[i].value == a.max
    ensures a.avg.Some? ==> a.avg.value <= a.max.value
    ensures a.avg == Mean(Map(Keep(work, RowIn(keep)), RowValue))
  {
    var xs := Map(Keep(work, RowIn(keep)), RowValue);
    RetainedCells(work, keep);
    Aggregate(Sum(xs), Mean(xs), Max(xs))
  }

  /** What the retained cells are: the cells of the listed destinations, in row order. */
  lemma {:induction false} RetainedCells(work: seq<Row>, keep: seq<string>)
    ensures var xs := Map(Keep(work, RowIn(keep)), RowValue);
      && Sum(xs) == SumWhere(work, RowIn(keep), RowValue)
      && (CountPresent(xs) == 0 <==> forall i :: 0 <= i < |work| && work[i].dest in keep ==> work[i].value.None?)
      && (forall i :: 0 <= i < |work| && work[i].dest in keep ==> work[i].value in xs)
      && (forall k :: 0 <= k < |xs| ==> exists i :: 0 <= i < |work| && work[i].dest in keep && work[i].value == xs[k])
      && (CountPresent(xs) > 0 ==> Mean(xs).value <= Max(xs).value)
  {
    var xs := Map(Keep(work, RowIn(keep)), RowValue);
    SumKeep(work, RowIn(keep), RowValue);
    NoneWhenNothingPresent(xs);
    RetainedCellsFrom(work, keep);
    RetainedCellsComplete(work, keep);
    if CountPresent(xs) > 0 {
      MeanAtMostMax(xs);
    }
  }

  /** Every retained cell is the cell of a listed destination. */
  lemma {:induction false} RetainedCellsFrom(work: seq<Row>, keep: seq<string>)
    ensures var xs := Map(Keep(work, RowIn(keep)), RowValue);
      forall k :: 0 <= k < |xs| ==> exists i :: 0 <= i < |work| && work[i].dest in keep && work[i].value == xs[k]
  {
    var kept := Keep(work, RowIn(keep));
    var xs := Map(kept, RowValue);
    forall k | 0 <= k < |xs|
      ensures exists i :: 0 <= i < |work| && work[i].dest in keep && work[i].value == xs[k]
    {
      KeepFrom(work, RowIn(keep), kept[k]);
      var i :| 0 <= i < |work| && work[i] == kept[k];
    }
  }

  /** The cell of every listed destination is retained. */
  lemma {:induction false} RetainedCellsComplete(work: seq<Row>, keep: seq<string>)
    ensures var xs := Map(Keep(work, RowIn(keep)), RowValue);
      forall i :: 0 <= i < |work| && work[i].dest in keep ==> work[i].value in xs
  {
    var kept := Keep(work, RowIn(keep));
    var xs := Map(kept, RowValue);
    forall i | 0 <= i < |work| && work[i].dest in keep ensures work[i].value in xs {
      KeepComplete(work, RowIn(keep), i);
      var k :| 0 <= k < |kept| && kept[k] == work[i];
      assert xs[k] == work[i].value;
    }
  }

  /** With distinct destination codes, a destination is retained exactly when its share passes 1%. */
  lemma {:induction false} TripFilterMembership(col: seq<Row>, i: int)
    requires Distinct(Map(col, RowDest)) && 0 <= i < |col|
    ensures col[i].dest in TripFilter(col).filtered <==> Gt(WithShares(col)[i].share, PercentageFilter)
  {
    var p := ShareAbove(PercentageFilter);
    var s := TripFilter(col);
    assert s == Summarize(SelectWhere(col, p));
    if col[i].dest in s.filtered {
      SelectionSound(col, p);
      var k :| 0 <= k < |col| && col[k].dest == col[i].dest && p(WithShares(col)[k]);
      SameDestSameRow(col, i, k);
    } else {
      SelectionComplete(col, p);
    }
  }

  /** With distinct destination codes, two rows with the same code are the same row. */
  lemma SameDestSameRow(col: seq<Row>, i: int, k: int)
    requires Distinct(Map(col, RowDest)) && 0 <= i < |col| && 0 <= k < |col| && col[i].dest == col[k].dest
    ensures i == k
  {
    assert Map(col, RowDest)[k] == Map(col, RowDest)[i];
  }

  /**
   Aggregating the trip table itself over its 1% destinations gives back the filter's retained
   number of commuters: the `sum_{mode}_trips` column counts exactly the retained trips.
   */
  lemma {:induction false} TripSumIsRetainedCommuters(col: seq<Row>)
    requires Distinct(Map(col, RowDest))
    ensures AggregateColumn(col, TripFilter(col).filtered).sum == TripFilter(col).commuters
  {
    var s := TripFilter(col);
    var ws := WithShares(col);
    var p := ShareAbove(PercentageFilter);
    forall i | 0 <= i < |col|
      ensures RowIn(s.filtered)(col[i]) == p(ws[i]) && RowValue(col[i]) == EntryValue(ws[i])
    {
      TripFilterMembership(col, i);
    }
    SumWhereCorrespond(col, RowIn(s.filtered), RowValue, ws, p, EntryValue);
    var r := FilterPercentage(col, PercentageFilter);
    assert r.Success? && r.value == s;
  }
}
