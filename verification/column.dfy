/**
 The data model of the contribution filter: a weight table with one column per origin MSOA and one
 row per destination MSOA, and the per-column frames the filter functions build from it.
 */
module Column {
  import opened Wrappers
  import opened Missing
  import opened Seqs

  /** One row of a single-column frame `df[[col]]`: destination code and weight. */
  datatype Row = Row(dest: string, value: Value)

  /** The single-column frame with its 'percentage' column added. */
  datatype Entry = Entry(dest: string, value: Value, share: Value)

  /** A row of a cumulative frame: the entry plus its running-sum column. */
  datatype Line = Line(dest: string, value: Value, share: Value, cum: Value)

  /**
   A weight table: `index` holds the destination codes, `names` the column (origin) codes and
   `cells[j]` the column named `names[j]`.
   */
  datatype Frame = Frame(index: seq<string>, names: seq<string>, cells: seq<seq<Value>>)

  predicate WellFormed(f: Frame) {
    && |f.cells| == |f.names|
    && forall j :: 0 <= j < |f.cells| ==> |f.cells[j]| == |f.index|
  }

  /** `df[[col]]` for the `j`-th column: one row per index entry. */
  function ColumnOf(f: Frame, j: int): (col: seq<Row>)
    requires WellFormed(f) && 0 <= j < |f.names|
    ensures |col| == |f.index|
    ensures forall i :: 0 <= i < |col| ==> col[i] == Row(f.index[i], f.cells[j][i])
  {
    seq(|f.index|, i requires 0 <= i < |f.index| => Row(f.index[i], f.cells[j][i]))
  }

  function RowValue(r: Row): Value { r.value }
  function EntryDest(e: Entry): string { e.dest }
  function EntryValue(e: Entry): Value { e.value }
  function EntryShare(e: Entry): Value { e.share }
  function LineDest(l: Line): string { l.dest }
  function LineValue(l: Line): Value { l.value }
  function LineShare(l: Line): Value { l.share }
  function LineCum(l: Line): Value { l.cum }

  /** `df_subset[col].sum()`: the column total, missing cells skipped. */
  function Total(col: seq<Row>): real {
    Sum(Map(col, RowValue))
  }

  /** `df_subset['percentage'] = df_subset[col] / df_subset[col].sum()`. */
  function WithShares(col: seq<Row>): (es: seq<Entry>)
    ensures |es| == |col|
    ensures forall i :: 0 <= i < |col| ==>
      es[i].dest == col[i].dest && es[i].value == col[i].value
    ensures Map(es, EntryShare) == Normalize(Map(col, RowValue))
  {
    var shares := Normalize(Map(col, RowValue));
    seq(|col|, i requires 0 <= i < |col| => Entry(col[i].dest, col[i].value, shares[i]))
  }

  /** The weights of `WithShares` are the column's weights, so their total is the column total. */
  lemma WithSharesValues(col: seq<Row>)
    ensures Map(WithShares(col), EntryValue) == Map(col, RowValue)
    ensures Sum(Map(WithShares(col), EntryValue)) == Total(col)
  {
  }

  /** Every present weight of every column is non-negative. */
  predicate NonNegativeColumn(col: seq<Row>) {
    forall i :: 0 <= i < |col| ==> Or0(col[i].value) >= 0.0
  }
}
