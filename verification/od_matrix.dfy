/**
 Unfolding a QUANT edge list into matrices: the input tables list one row per (origin, destination)
 pair, and the baseline scripts turn them into one column per MSOA, leaving every pair the input
 does not list missing.
 */
module OdMatrix {
  import opened Wrappers
  import opened Missing
  import opened Seqs
  import opened Column

  /** One input row: `origin_msoacode`, `destination_msoacode` and the value column. */
  datatype Edge = Edge(origin: string, destination: string, value: Value)

  function EdgeOrigin(e: Edge): string { e.origin }
  function EdgeDestination(e: Edge): string { e.destination }
  function HasOrigin(o: string): Edge -> bool { (e: Edge) => e.origin == o }
  function HasDestination(d: string): Edge -> bool { (e: Edge) => e.destination == d }

  /** No (origin, destination) pair is listed twice. */
  predicate UniquePairs(edges: seq<Edge>) {
    forall i, j :: 0 <= i < j < |edges| ==>
      edges[i].origin != edges[j].origin || edges[i].destination != edges[j].destination
  }

  /**
   The reference meaning of an edge list as a matrix: the value listed for the pair, missing when
   the pair is not listed.
   */
  function Lookup(edges: seq<Edge>, o: string, d: string): (v: Value)
    ensures (forall k :: 0 <= k < |edges| ==> edges[k].origin != o || edges[k].destination != d) ==> v == None
  {
    if |edges| == 0 then None
    else if edges[0].origin == o && edges[0].destination == d then edges[0].value
    else Lookup(edges[1..], o, d)
  }

  /** With unique pairs, the looked-up value is the value of the row listing the pair. */
  lemma {:induction false} LookupListed(edges: seq<Edge>, k: int)
    requires UniquePairs(edges) && 0 <= k < |edges|
    ensures Lookup(edges, edges[k].origin, edges[k].destination) == edges[k].value
    decreases |edges|
  {
    if k > 0 {
      assert edges[0].origin != edges[k].origin || edges[0].destination != edges[k].destination;
      assert edges[1..][k - 1] == edges[k];
      LookupListed(edges[1..], k - 1);
    }
  }

  /**
   The value of the first row whose `key` column equals `x`, missing when there is none: one row of
   a left merge `pd.merge(left, right, how='left', left_on=..., right_on=key)`.
   */
  function FirstValue(rows: seq<Edge>, key: Edge -> string, x: string): (v: Value)
    ensures (forall k :: 0 <= k < |rows| ==> key(rows[k]) != x) ==> v == None
    ensures (exists k :: 0 <= k < |rows| && key(rows[k]) == x) ==>
      exists k :: 0 <= k < |rows| && key(rows[k]) == x && v == rows[k].value
  {
    if |rows| == 0 then None
    else if key(rows[0]) == x then rows[0].value
    else
      var v := FirstValue(rows[1..], key, x);
      assert forall k :: 0 <= k < |rows| - 1 ==> rows[1..][k] == rows[k + 1];
      v
  }

  /**
   The left merge of a list of labels with a table keyed by `key`: one value per label, in label
   order. The tables merged here list each key at most once, so the merge keeps one row per label.
   */
  function LeftMerge(labels: seq<string>, rows: seq<Edge>, key: Edge -> string): (col: seq<Value>)
    ensures |col| == |labels|
    ensures forall i :: 0 <= i < |labels| ==> col[i] == FirstValue(rows, key, labels[i])
  {
    seq(|labels|, i requires 0 <= i < |labels| => FirstValue(rows, key, labels[i]))
  }

  /** The column of all-missing values the scripts assign with `= np.nan`. */
  function AllMissing(n: nat): (col: seq<Value>)
    ensures |col| == n && forall i :: 0 <= i < n ==> col[i] == None
  {
    seq(n, i => None)
  }

  /** Selecting the rows of one origin and looking up a destination among them is the lookup. */
  lemma {:induction false} OriginRowsLookup(edges: seq<Edge>, o: string, d: string)
    ensures FirstValue(Keep(edges, HasOrigin(o)), EdgeDestination, d) == Lookup(edges, o, d)
    decreases |edges|
  {
    if |edges| > 0 {
      OriginRowsLookup(edges[1..], o, d);
      if edges[0].origin == o {
        assert Keep(edges, HasOrigin(o)) == [edges[0]] + Keep(edges[1..], HasOrigin(o));
        assert ([edges[0]] + Keep(edges[1..], HasOrigin(o)))[1..] == Keep(edges[1..], HasOrigin(o));
      }
    }
  }

  /** Selecting the rows of one destination and looking up an origin among them is the lookup. */
  lemma {:induction false} DestinationRowsLookup(edges: seq<Edge>, o: string, d: string)
    ensures FirstValue(Keep(edges, HasDestination(d)), EdgeOrigin, o) == Lookup(edges, o, d)
    decreases |edges|
  {
    if |edges| > 0 {
      DestinationRowsLookup(edges[1..], o, d);
      if edges[0].destination == d {
        assert Keep(edges, HasDestination(d)) == [edges[0]] + Keep(edges[1..], HasDestination(d));
        assert ([edges[0]] + Keep(edges[1..], HasDestination(d)))[1..] == Keep(edges[1..], HasDestination(d));
      }
    }
  }

  /**
   The column built for one origin: when the origin occurs in the input, its rows are left-merged
   with the label list on the destination; otherwise the column is all missing. Either way every
   entry is the looked-up value of the pair.
   */
  function OriginColumn(labels: seq<string>, edges: seq<Edge>, o: string): (col: seq<Value>)
    ensures |col| == |labels|
    ensures forall i :: 0 <= i < |labels| ==> col[i] == Lookup(edges, o, labels[i])
  {
    var rows := Keep(edges, HasOrigin(o));
    forall i | 0 <= i < |labels| ensures FirstValue(rows, EdgeDestination, labels[i]) == Lookup(edges, o, labels[i]) {
      OriginRowsLookup(edges, o, labels[i]);
    }
    if rows != [] then LeftMerge(labels, rows, EdgeDestination)
    else
      forall i | 0 <= i < |labels| ensures Lookup(edges, o, labels[i]) == None {
        KeepAbsent(edges, HasOrigin(o));
      }
      AllMissing(|labels|)
  }

  /** When nothing is kept, no element satisfies the rule. */
  lemma {:induction false} KeepAbsent<T>(xs: seq<T>, p: T -> bool)
    requires Keep(xs, p) == []
    ensures forall k :: 0 <= k < |xs| ==> !p(xs[k])
  {
    forall k | 0 <= k < |xs| ensures !p(xs[k]) {
      if p(xs[k]) {
        KeepComplete(xs, p, k);
      }
    }
  }

  /**
   `to_dataframe_OD_matrix(df_unique_msoa_list, df_input, value_name)`: a table with the MSOA list as
   its index and one column per MSOA of the list, in list order; the column of origin `o` holds at
   destination `d` the value of the input row (o, d). The MSOA list is a list of unique codes, so
   no column is assigned twice.
   */
  function Unfold(msoas: seq<string>, edges: seq<Edge>): (f: Frame)
    requires Distinct(msoas)
    ensures WellFormed(f)
    ensures f.index == msoas && f.names == msoas
    ensures forall j, i :: 0 <= j < |msoas| && 0 <= i < |msoas| ==>
      f.cells[j][i] == Lookup(edges, msoas[j], msoas[i])
    ensures forall j :: 0 <= j < |msoas| && (forall k :: 0 <= k < |edges| ==> edges[k].origin != msoas[j]) ==>
      forall i :: 0 <= i < |msoas| ==> f.cells[j][i] == None
  {
    var cells := seq(|msoas|, k requires 0 <= k < |msoas| => OriginColumn(msoas, edges, msoas[k]));
    ColumnsAreLookups(msoas, edges, cells);
    Frame(msoas, msoas, cells)
  }

  /** A table whose columns are the origin columns of the MSOA list holds the looked-up values. */
  lemma ColumnsAreLookups(msoas: seq<string>, edges: seq<Edge>, cells: seq<seq<Value>>)
    requires |cells| == |msoas|
    requires forall k :: 0 <= k < |msoas| ==> cells[k] == OriginColumn(msoas, edges, msoas[k])
    ensures WellFormed(Frame(msoas, msoas, cells))
    ensures forall j, i :: 0 <= j < |msoas| && 0 <= i < |msoas| ==>
      cells[j][i] == Lookup(edges, msoas[j], msoas[i])
    ensures forall j :: 0 <= j < |msoas| && (forall k :: 0 <= k < |edges| ==> edges[k].origin != msoas[j]) ==>
      forall i :: 0 <= i < |msoas| ==> cells[j][i] == None
  {
    forall j | 0 <= j < |msoas|
      ensures |cells[j]| == |msoas|
      ensures forall i :: 0 <= i < |msoas| ==> cells[j][i] == Lookup(edges, msoas[j], msoas[i])
    {
      assert cells[j] == OriginColumn(msoas, edges, msoas[j]);
    }
  }

  /** Every listed pair between two listed MSOAs lands in its cell. */
  lemma UnfoldListed(f: Frame, msoas: seq<string>, edges: seq<Edge>, k: int, j: int, i: int)
    requires WellFormed(f) && f.index == msoas && f.names == msoas
    requires forall j, i :: 0 <= j < |msoas| && 0 <= i < |msoas| ==>
      f.cells[j][i] == Lookup(edges, msoas[j], msoas[i])
    requires UniquePairs(edges) && 0 <= k < |edges|
    requires 0 <= j < |msoas| && msoas[j] == edges[k].origin
    requires 0 <= i < |msoas| && msoas[i] == edges[k].destination
    ensures f.cells[j][i] == edges[k].value
  {
    LookupListed(edges, k);
  }
}
