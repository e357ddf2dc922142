/**
 The per-origin contribution filter: for one column of a destination-by-origin weight table it
 computes each destination's share of the column total, ranks destinations, takes running sums and
 keeps a subset of rows under one of four rules. Each function models one helper of the scripts
 applied to a single column; `Tables` applies them to every column of a frame.
 */
module ContributionFilter {
  import opened Wrappers
  import opened Missing
  import opened Rounding
  import opened Seqs
  import opened Column
  import opened Ranking
  import opened RunningSum

  /** The dictionary entry of the three filter helpers. */
  datatype Selection = Selection(
    filtered: seq<string>,   // 'filtered_list'
    count: nat,              // 'retained_number_of_msoas'
    percentageSum: real,     // 'retained_percentage_sum'
    commuters: real)         // 'retained_number_of_commuters'

  /** The dictionary entry of the two cumulative-frame creators. */
  datatype Cumulative = Cumulative(
    retained: seq<Line>,     // 'retained_df'
    count: nat,              // 'retained_number_of_msoas'
    commuters: real)         // 'retained_number_of_commuters'

  /** The exception a helper raises before looking at any column. */
  datatype FilterError = NameError(name: string)

  function RowDest(r: Row): string { r.dest }

  /** Row-wise rules, written as named functions so that every use denotes the same rule. */
  function ValueAbove(t: real): Entry -> bool { (e: Entry) => Gt(e.value, t) }
  function ShareAbove(t: real): Entry -> bool { (e: Entry) => Gt(e.share, t) }
  function KeyPositive(rank: RankBy): Line -> bool { (l: Line) => Gt(LineKeyOf(l, rank), 0.0) }
  function CumBelow(c: real): Line -> bool { (l: Line) => Lt(l.cum, c) }

  function LineEntry(l: Line): Entry { Entry(l.dest, l.value, l.share) }
  function LineKeyOf(l: Line, rank: RankBy): Value { Key(LineEntry(l), rank) }
  function LineKey(rank: RankBy): Line -> Value { (l: Line) => LineKeyOf(l, rank) }
  function EntryKey(rank: RankBy): Entry -> Value { (e: Entry) => Key(e, rank) }

  /** Every entry's share is its weight over `total`, as in the 'percentage' column. */
  predicate SharesOver(es: seq<Entry>, total: real) {
    forall i :: 0 <= i < |es| ==> es[i].share == Div(es[i].value, total)
  }

  // ---------------------------------------------------------------------------------------------
  // Row-wise filters on the unsorted frame
  // ---------------------------------------------------------------------------------------------

  /** The four scalars stored for a selected sub-frame. */
  function Summarize(kept: seq<Entry>): (s: Selection)
    ensures s.filtered == Map(kept, EntryDest)
    ensures s.count == |s.filtered|
    ensures s.commuters == Sum(Map(kept, EntryValue))
    ensures -0.05 <= s.percentageSum - Sum(Map(kept, EntryShare)) * 100.0 <= 0.05
  {
    Selection(
      Map(kept, EntryDest),
      |kept|,
      Round1(Sum(Map(kept, EntryShare)) * 100.0),
      Sum(Map(kept, EntryValue)))
  }

  /** `df_subset.query(...)` on the frame with its 'percentage' column: the rows passing `p`. */
  function SelectWhere(col: seq<Row>, p: Entry -> bool): (kept: seq<Entry>)
    ensures IsSubsequence(kept, WithShares(col))
    ensures forall i :: 0 <= i < |kept| ==> p(kept[i])
    ensures forall i :: 0 <= i < |col| && p(WithShares(col)[i]) ==> WithShares(col)[i] in kept
    ensures SharesOver(kept, Total(col))
  {
    var es := WithShares(col);
    var kept := Keep(es, p);
    KeepIsSubsequence(es, p);
    forall i | 0 <= i < |col| && p(es[i]) ensures es[i] in kept {
      KeepComplete(es, p, i);
    }
    forall i | 0 <= i < |kept| ensures kept[i].share == Div(kept[i].value, Total(col)) {
      KeepFrom(es, p, kept[i]);
    }
    kept
  }

  /** The destinations of a row-wise selection keep the column's order. */
  lemma SelectionOrder(col: seq<Row>, p: Entry -> bool)
    ensures IsSubsequence(Summarize(SelectWhere(col, p)).filtered, Map(col, RowDest))
  {
    var es := WithShares(col);
    assert Map(es, EntryDest) == Map(col, RowDest);
    MapSubsequence(SelectWhere(col, p), es, EntryDest);
  }

  /** Every destination whose row passes is listed. */
  lemma SelectionComplete(col: seq<Row>, p: Entry -> bool)
    ensures forall i :: 0 <= i < |col| && p(WithShares(col)[i]) ==>
      col[i].dest in Summarize(SelectWhere(col, p)).filtered
  {
    var es := WithShares(col);
    var kept := SelectWhere(col, p);
    var s := Summarize(kept);
    forall i | 0 <= i < |col| && p(es[i]) ensures col[i].dest in s.filtered {
      var k :| 0 <= k < |kept| && kept[k] == es[i];
      assert s.filtered[k] == col[i].dest;
    }
  }

  /** Every listed destination belongs to a row that passes. */
  lemma SelectionSound(col: seq<Row>, p: Entry -> bool)
    ensures forall d :: d in Summarize(SelectWhere(col, p)).filtered ==>
      exists i :: 0 <= i < |col| && col[i].dest == d && p(WithShares(col)[i])
  {
    var es := WithShares(col);
    var kept := SelectWhere(col, p);
    var s := Summarize(kept);
    forall d | d in s.filtered
      ensures exists i :: 0 <= i < |col| && col[i].dest == d && p(es[i])
    {
      var k :| 0 <= k < |kept| && s.filtered[k] == d;
      KeepFrom(es, p, kept[k]);
      var i :| 0 <= i < |es| && es[i] == kept[k];
      assert col[i].dest == d && p(es[i]);
    }
  }

  /** The weight and share sums of a row-wise selection. */
  lemma SelectionSums(col: seq<Row>, p: Entry -> bool)
    ensures Summarize(SelectWhere(col, p)).commuters == SumWhere(WithShares(col), p, EntryValue)
    ensures var s := Summarize(SelectWhere(col, p));
      Total(col) != 0.0 ==> -0.05 <= s.percentageSum - s.commuters / Total(col) * 100.0 <= 0.05
  {
    var kept := SelectWhere(col, p);
    SumKeep(WithShares(col), p, EntryValue);
    if Total(col) != 0.0 {
      ShareSum(kept, Total(col));
    }
  }

  lemma SelectionSummary(col: seq<Row>, p: Entry -> bool)
    ensures var s := Summarize(SelectWhere(col, p));
      && IsSubsequence(s.filtered, Map(col, RowDest))
      && (forall i :: 0 <= i < |col| && p(WithShares(col)[i]) ==> col[i].dest in s.filtered)
      && (forall d :: d in s.filtered ==>
            exists i :: 0 <= i < |col| && col[i].dest == d && p(WithShares(col)[i]))
      && s.commuters == SumWhere(WithShares(col), p, EntryValue)
      && (Total(col) != 0.0 ==> -0.05 <= s.percentageSum - s.commuters / Total(col) * 100.0 <= 0.05)
  {
    SelectionOrder(col, p);
    SelectionComplete(col, p);
    SelectionSound(col, p);
    SelectionSums(col, p);
  }

  /** Over entries whose shares are taken of `total`, the shares sum to the weights over `total`. */
  lemma ShareSum(es: seq<Entry>, total: real)
    requires SharesOver(es, total) && total != 0.0
    ensures Sum(Map(es, EntryShare)) == Sum(Map(es, EntryValue)) / total
  {
    assert Map(es, EntryShare) == DivAll(Map(es, EntryValue), total);
    SumDiv(Map(es, EntryValue), total);
  }

  /**
   `msoa_filter_absolute` on one column: the rows whose raw weight is strictly above the threshold,
   in column order. Missing weights never pass.
   */
  function FilterAbsolute(col: seq<Row>, threshold: real): (s: Selection)
    ensures s.count == |s.filtered|
    ensures IsSubsequence(s.filtered, Map(col, RowDest))
    ensures forall i :: 0 <= i < |col| && Gt(col[i].value, threshold) ==> col[i].dest in s.filtered
    ensures forall d :: d in s.filtered ==>
      exists i :: 0 <= i < |col| && col[i].dest == d && Gt(col[i].value, threshold)
    ensures s.commuters == SumWhere(WithShares(col), ValueAbove(threshold), EntryValue)
    ensures Total(col) != 0.0 ==>
      -0.05 <= s.percentageSum - s.commuters / Total(col) * 100.0 <= 0.05
  {
    SelectionSummary(col, ValueAbove(threshold));
    Summarize(SelectWhere(col, ValueAbove(threshold)))
  }

  /** The threshold check of `msoa_filter_percentage`, which names an undefined variable. */
  predicate PercentageOutOfRange(threshold: real) {
    threshold > 1.0 || threshold < 0.0
  }

  /**
   `msoa_filter_percentage` on one column: the rows whose share of the column total is strictly
   above the threshold. A threshold outside [0, 1] reaches the name `absolute`, which is defined
   nowhere, so the helper raises before filtering anything.
   */
  function FilterPercentage(col: seq<Row>, threshold: real): (r: Result<Selection, FilterError>)
    ensures r.Failure? <==> PercentageOutOfRange(threshold)
    ensures r.Failure? ==> r.error == NameError("absolute")
    ensures r.Success? ==>
      && r.value.count == |r.value.filtered|
      && IsSubsequence(r.value.filtered, Map(col, RowDest))
      && (forall i :: 0 <= i < |col| && Gt(WithShares(col)[i].share, threshold) ==>
            col[i].dest in r.value.filtered)
      && (forall d :: d in r.value.filtered ==>
            exists i :: 0 <= i < |col| && col[i].dest == d && Gt(WithShares(col)[i].share, threshold))
      && r.value.commuters == SumWhere(WithShares(col), ShareAbove(threshold), EntryValue)
      && (Total(col) != 0.0 ==>
            -0.05 <= r.value.percentageSum - r.value.commuters / Total(col) * 100.0 <= 0.05)
  {
    if PercentageOutOfRange(threshold) then Failure(NameError("absolute"))
    else
      SelectionSummary(col, ShareAbove(threshold));
      Success(Summarize(SelectWhere(col, ShareAbove(threshold))))
  }

  /** A destination passes the share filter exactly when its weight is above that fraction of the total. */
  lemma ShareAboveIffWeightAbove(col: seq<Row>, threshold: real, i: int)
    requires 0 <= i < |col| && Total(col) > 0.0
    ensures Gt(WithShares(col)[i].share, threshold) <==> Gt(col[i].value, threshold * Total(col))
  {
    var e := WithShares(col)[i];
    if col[i].value.Some? {
      assert Map(WithShares(col), EntryShare) == Normalize(Map(col, RowValue));
      assert e.share == Some(col[i].value.value / Total(col));
      DivCompare(col[i].value.value, Total(col), threshold);
    }
  }

  lemma DivCompare(x: real, d: real, t: real)
    requires d > 0.0
    ensures x / d > t <==> x > t * d
  {
  }

  // ---------------------------------------------------------------------------------------------
  // Ranked frames with a running-sum column
  // ---------------------------------------------------------------------------------------------

  /** A cumulative frame without its running-sum column. */
  function Entries(ls: seq<Line>): seq<Entry> {
    Map(ls, LineEntry)
  }

  /** The running-sum column of `ls` is the pandas running sum of its ranking key. */
  predicate RunningSumOf(ls: seq<Line>, rank: RankBy) {
    forall i :: 0 <= i < |ls| ==>
      ls[i].cum == (if LineKeyOf(ls[i], rank).Some? then Some(Sum(Map(ls[..i + 1], LineKey(rank)))) else None)
  }

  /** `ls` is one possible sorted frame of the column, with the running sum of the sort key. */
  predicate IsCumulativeFrame(col: seq<Row>, ls: seq<Line>, rank: RankBy) {
    IsRanking(WithShares(col), Entries(ls), rank) && RunningSumOf(ls, rank)
  }

  /** `df_subset_sorted['cumsum_...'] = df_subset_sorted[key].cumsum()`. */
  function Accumulate(ranked: seq<Entry>, rank: RankBy): (ls: seq<Line>)
    ensures Entries(ls) == ranked
    ensures RunningSumOf(ls, rank)
  {
    var cums := CumSum(Map(ranked, EntryKey(rank)));
    var ls := seq(|ranked|, i requires 0 <= i < |ranked| =>
      Line(ranked[i].dest, ranked[i].value, ranked[i].share, cums[i]));
    AccumulateSums(ranked, rank, ls);
    ls
  }

  lemma {:induction false} AccumulateSums(ranked: seq<Entry>, rank: RankBy, ls: seq<Line>)
    requires |ls| == |ranked|
    requires forall i :: 0 <= i < |ls| ==> ls[i] == Line(ranked[i].dest, ranked[i].value,
      ranked[i].share, CumSum(Map(ranked, EntryKey(rank)))[i])
    ensures Entries(ls) == ranked
    ensures RunningSumOf(ls, rank)
  {
    var keys := Map(ranked, EntryKey(rank));
    forall i | 0 <= i < |ls|
      ensures ls[i].cum == (if LineKeyOf(ls[i], rank).Some? then Some(Sum(Map(ls[..i + 1], LineKey(rank)))) else None)
    {
      assert LineEntry(ls[i]) == ranked[i];
      assert Map(ls[..i + 1], LineKey(rank)) == keys[..i + 1];
    }
  }

  /**
   The sorted frame of one column with its running-sum column: `df_subset.sort_values(by=key,
   ascending=False)` followed by `cumsum()` of the key.
   */
  function RankedFrame(col: seq<Row>, rank: RankBy): (ls: seq<Line>)
    ensures IsCumulativeFrame(col, ls, rank)
    ensures |ls| == |col|
  {
    Accumulate(Sort(WithShares(col), rank), rank)
  }

  /** A prefix of a sorted frame is sorted and carries the same running sums. */
  lemma PrefixOfCumulative(ls: seq<Line>, rank: RankBy, k: int)
    requires Sorted(Entries(ls), rank) && RunningSumOf(ls, rank)
    requires 0 <= k <= |ls|
    ensures Sorted(Entries(ls[..k]), rank) && RunningSumOf(ls[..k], rank)
  {
    MapPrefix(ls, LineEntry, k);
    var pre := ls[..k];
    forall i | 0 <= i < k
      ensures pre[i].cum == (if LineKeyOf(pre[i], rank).Some? then Some(Sum(Map(pre[..i + 1], LineKey(rank)))) else None)
    {
      assert pre[..i + 1] == ls[..i + 1];
    }
  }

  /** In a sorted frame the rows with a positive key come first: cutting off the others keeps a prefix. */
  lemma PositivePrefix(ls: seq<Line>, rank: RankBy)
    requires Sorted(Entries(ls), rank)
    ensures Keep(ls, KeyPositive(rank)) == ls[..|Keep(ls, KeyPositive(rank))|]
    ensures forall i :: 0 <= i < |ls| ==>
      (Gt(LineKeyOf(ls[i], rank), 0.0) <==> i < |Keep(ls, KeyPositive(rank))|)
  {
    var p := KeyPositive(rank);
    forall i, j | 0 <= i < j < |ls| && p(ls[j]) ensures p(ls[i]) {
      assert Entries(ls)[i] == LineEntry(ls[i]) && Entries(ls)[j] == LineEntry(ls[j]);
      assert AtLeast(Key(Entries(ls)[i], rank), Key(Entries(ls)[j], rank));
    }
    KeepPrefix(ls, p);
  }

  /** The entries kept by the cut-off are exactly the column's entries with a positive key. */
  lemma CutOffEntries(col: seq<Row>, ls: seq<Line>, rank: RankBy)
    requires IsCumulativeFrame(col, ls, rank)
    ensures multiset(Entries(Keep(ls, KeyPositive(rank))))
      == multiset(Keep(WithShares(col), EntryKeyPositive(rank)))
  {
    EntriesKeep(ls, rank);
    KeepPermutation(Entries(ls), WithShares(col), EntryKeyPositive(rank));
  }

  function EntryKeyPositive(rank: RankBy): Entry -> bool { (e: Entry) => Gt(Key(e, rank), 0.0) }

  lemma {:induction false} EntriesKeep(ls: seq<Line>, rank: RankBy)
    ensures Entries(Keep(ls, KeyPositive(rank))) == Keep(Entries(ls), EntryKeyPositive(rank))
    decreases |ls|
  {
    if |ls| > 0 {
      EntriesKeep(ls[1..], rank);
      assert Entries(ls)[1..] == Entries(ls[1..]);
      if KeyPositive(rank)(ls[0]) {
        assert Entries([ls[0]] + Keep(ls[1..], KeyPositive(rank)))
          == [LineEntry(ls[0])] + Entries(Keep(ls[1..], KeyPositive(rank)));
      }
    }
  }

  /**
   The cumulative-frame creators: sort by the raw weight (`msoa_df_creator_cumsum_abs_value`) or by
   the share (`msoa_df_creator_cumsum_percentage`), add the running sum of that key and, with
   `cutOff`, drop the rows whose key is not strictly positive.
   */
  function Create(col: seq<Row>, rank: RankBy, cutOff: bool): (c: Cumulative)
    ensures c.count == |c.retained|
    ensures c.commuters == Sum(Map(c.retained, LineValue))
    ensures Sorted(Entries(c.retained), rank)
    ensures RunningSumOf(c.retained, rank)
    ensures !cutOff ==> multiset(Entries(c.retained)) == multiset(WithShares(col))
    ensures cutOff ==>
      multiset(Entries(c.retained)) == multiset(Keep(WithShares(col), EntryKeyPositive(rank)))
    ensures cutOff ==> forall i :: 0 <= i < |c.retained| ==> Gt(LineKeyOf(c.retained[i], rank), 0.0)
  {
    var ls := RankedFrame(col, rank);
    var kept := if cutOff then Keep(ls, KeyPositive(rank)) else ls;
    if cutOff then
      PositivePrefix(ls, rank);
      PrefixOfCumulative(ls, rank, |kept|);
      CutOffEntries(col, ls, rank);
      Cumulative(kept, |kept|, Sum(Map(kept, LineValue)))
    else
      Cumulative(kept, |kept|, Sum(Map(kept, LineValue)))
  }

  /** `msoa_df_creator_cumsum_abs_value(df, cut_off)` on one column. */
  function CreateCumSumAbsValue(col: seq<Row>, cutOff: bool): Cumulative {
    Create(col, ByValue, cutOff)
  }

  /** `msoa_df_creator_cumsum_percentage(df, cut_off)` on one column. */
  function CreateCumSumPercentage(col: seq<Row>, cutOff: bool): Cumulative {
    Create(col, ByShare, cutOff)
  }

  /** The weights of a cumulative frame are its entries' weights. */
  lemma LineValues(ls: seq<Line>)
    ensures Map(ls, LineValue) == Map(Entries(ls), EntryValue)
  {
  }

  /** Without the cut-off every row is retained: the count is the column length, the weight sum its total. */
  lemma CreateKeepsAll(col: seq<Row>, rank: RankBy)
    ensures Create(col, rank, false).count == |col|
    ensures Create(col, rank, false).commuters == Total(col)
  {
    var c := Create(col, rank, false);
    RankingLength(WithShares(col), Entries(c.retained), rank);
    LineValues(c.retained);
    SumPermutation(Entries(c.retained), WithShares(col), EntryValue);
    WithSharesValues(col);
  }

  /** With the cut-off the retained rows are a prefix of the sorted frame. */
  lemma CutOffIsPrefix(col: seq<Row>, rank: RankBy)
    ensures var c := Create(col, rank, true);
      c.retained == RankedFrame(col, rank)[..c.count]
  {
    PositivePrefix(RankedFrame(col, rank), rank);
  }

  /**
   With the cut-off on raw weights, the running sum at the last retained row is the retained
   weight sum: the curve ends at 'retained_number_of_commuters'.
   */
  lemma CutOffEndsAtCommuters(col: seq<Row>)
    requires exists i :: 0 <= i < |col| && Gt(col[i].value, 0.0)
    ensures var c := CreateCumSumAbsValue(col, true);
      c.count > 0 && c.retained[c.count - 1].cum == Some(c.commuters)
  {
    var i :| 0 <= i < |col| && Gt(col[i].value, 0.0);
    CutOffKeepsPositive(col, ByValue, i);
    CutOffFrameEndsAtSum(CreateCumSumAbsValue(col, true));
  }

  /** A destination whose key is strictly positive survives the cut-off, so the frame is not empty. */
  lemma CutOffKeepsPositive(col: seq<Row>, rank: RankBy, i: int)
    requires 0 <= i < |col| && Gt(Key(WithShares(col)[i], rank), 0.0)
    ensures Create(col, rank, true).count > 0
  {
    var c := Create(col, rank, true);
    var es := WithShares(col);
    KeepComplete(es, EntryKeyPositive(rank), i);
    assert es[i] in multiset(Keep(es, EntryKeyPositive(rank)));
    assert es[i] in multiset(Entries(c.retained));
  }

  /** A weight-ranked frame with positive keys ends its running sum at the sum of its weights. */
  lemma CutOffFrameEndsAtSum(c: Cumulative)
    requires 0 < c.count == |c.retained|
    requires RunningSumOf(c.retained, ByValue)
    requires forall k :: 0 <= k < |c.retained| ==> Gt(LineKeyOf(c.retained[k], ByValue), 0.0)
    requires c.commuters == Sum(Map(c.retained, LineValue))
    ensures c.retained[c.count - 1].cum == Some(c.commuters)
  {
    assert Gt(LineKeyOf(c.retained[c.count - 1], ByValue), 0.0);
    LastRunningSum(c.retained, ByValue);
    ValueKeys(c.retained);
  }

  /** The running sum at the last row of a frame whose keys are all positive is the sum of all keys. */
  lemma LastRunningSum(ls: seq<Line>, rank: RankBy)
    requires |ls| > 0 && RunningSumOf(ls, rank)
    requires LineKeyOf(ls[|ls| - 1], rank).Some?
    ensures ls[|ls| - 1].cum == Some(Sum(Map(ls, LineKey(rank))))
  {
    assert ls[..|ls|] == ls;
  }

  /** Ranked by raw weight, the ranking key of every row is its weight. */
  lemma ValueKeys(ls: seq<Line>)
    ensures Map(ls, LineKey(ByValue)) == Map(ls, LineValue)
  {
  }

  /**
   With a zero column total every share is missing, so the share-ranked creator with the cut-off
   retains nothing.
   */
  lemma {:induction false} ZeroTotalRetainsNothing(col: seq<Row>)
    requires Total(col) == 0.0
    ensures CreateCumSumPercentage(col, true).count == 0
    ensures CreateCumSumPercentage(col, true).commuters == 0.0
  {
    var c := CreateCumSumPercentage(col, true);
    var es := WithShares(col);
    NormalizeZeroTotal(Map(col, RowValue));
    forall i | 0 <= i < |es| ensures !EntryKeyPositive(ByShare)(es[i]) {
      assert Map(es, EntryShare)[i] == Normalize(Map(col, RowValue))[i];
    }
    KeepNone(es, EntryKeyPositive(ByShare));
    assert multiset(Entries(c.retained)) == multiset{};
    assert |Entries(c.retained)| == 0;
  }

  // ---------------------------------------------------------------------------------------------
  // The cumulative-share filter
  // ---------------------------------------------------------------------------------------------

  /** Every row of a cumulative frame is one of the column's entries. */
  lemma {:induction false} FrameEntryFromColumn(col: seq<Row>, ls: seq<Line>, rank: RankBy, i: int)
    requires IsCumulativeFrame(col, ls, rank) && 0 <= i < |ls|
    ensures LineEntry(ls[i]) in WithShares(col)
  {
    assert Entries(ls)[i] == LineEntry(ls[i]);
    assert LineEntry(ls[i]) in multiset(Entries(ls));
  }

  /** The shares of a cumulative frame are still its weights over the column total. */
  lemma {:induction false} FrameSharesOver(col: seq<Row>, ls: seq<Line>, rank: RankBy)
    requires IsCumulativeFrame(col, ls, rank)
    ensures SharesOver(Entries(ls), Total(col))
  {
    forall i | 0 <= i < |ls| ensures Entries(ls)[i].share == Div(Entries(ls)[i].value, Total(col)) {
      FrameEntryFromColumn(col, ls, rank, i);
    }
  }

  /** With non-negative weights every share of a cumulative frame is non-negative. */
  lemma {:induction false} FrameSharesNonNegative(col: seq<Row>, ls: seq<Line>)
    requires NonNegativeColumn(col) && IsCumulativeFrame(col, ls, ByShare)
    ensures NonNegative(Map(ls, LineKey(ByShare)))
  {
    var values := Map(col, RowValue);
    assert NonNegative(values);
    NormalizeNonNegative(values);
    forall i | 0 <= i < |ls| ensures Or0(LineKeyOf(ls[i], ByShare)) >= 0.0 {
      FrameEntryFromColumn(col, ls, ByShare, i);
      var k :| 0 <= k < |col| && WithShares(col)[k] == LineEntry(ls[i]);
      assert Map(WithShares(col), EntryShare)[k] == Normalize(values)[k];
    }
  }

  /**
   With non-negative weights the running share sum only grows down a share-ranked frame, so the
   rows whose running sum is below `c` come first.
   */
  lemma {:induction false} CumBelowPrefix(col: seq<Row>, ls: seq<Line>, c: real)
    requires NonNegativeColumn(col) && IsCumulativeFrame(col, ls, ByShare)
    ensures Keep(ls, CumBelow(c)) == ls[..|Keep(ls, CumBelow(c))|]
    ensures forall i :: 0 <= i < |ls| ==> (Lt(ls[i].cum, c) <==> i < |Keep(ls, CumBelow(c))|)
  {
    FrameSharesNonNegative(col, ls);
    forall i, j | 0 <= i < j < |ls| && CumBelow(c)(ls[j]) ensures CumBelow(c)(ls[i]) {
      RunningSumMonotone(ls, ByShare, i, j);
    }
    KeepPrefix(ls, CumBelow(c));
  }

  /** Down a sorted frame with non-negative keys, a present running sum is at least every earlier one. */
  lemma {:induction false} RunningSumMonotone(ls: seq<Line>, rank: RankBy, i: int, j: int)
    requires Sorted(Entries(ls), rank) && RunningSumOf(ls, rank)
    requires NonNegative(Map(ls, LineKey(rank)))
    requires 0 <= i < j < |ls| && ls[j].cum.Some?
    ensures ls[i].cum.Some? && ls[i].cum.value <= ls[j].cum.value
  {
    var keys := Map(ls, LineKey(rank));
    CumsAsPrefixSums(ls, rank, i, j);
    PrefixSumMonotone(keys, i + 1, j + 1);
  }

  /** Both running sums, when the later one is present, are sums over prefixes of the key column. */
  lemma {:induction false} CumsAsPrefixSums(ls: seq<Line>, rank: RankBy, i: int, j: int)
    requires Sorted(Entries(ls), rank) && RunningSumOf(ls, rank)
    requires 0 <= i < j < |ls| && ls[j].cum.Some?
    ensures ls[i].cum == Some(Sum(Map(ls, LineKey(rank))[..i + 1]))
    ensures ls[j].cum == Some(Sum(Map(ls, LineKey(rank))[..j + 1]))
  {
    assert LineKeyOf(ls[j], rank).Some?;
    SortedKeys(ls, rank, i, j);
    CumAt(ls, rank, i);
    CumAt(ls, rank, j);
  }

  lemma DivBelow(x: real, d: real, t: real)
    requires d > 0.0
    ensures x / d < t <==> x < t * d
  {
  }

  /** The running share sum at row `k - 1` is the share sum of the first `k` rows. */
  lemma {:induction false} RunningShareSum(ls: seq<Line>, k: int)
    requires RunningSumOf(ls, ByShare)
    requires 0 < k <= |ls| && ls[k - 1].cum.Some?
    ensures ls[k - 1].cum == Some(Sum(Map(Entries(ls[..k]), EntryShare)))
  {
    var pre := ls[..k];
    assert Map(pre, LineKey(ByShare)) == Map(Entries(pre), EntryShare);
  }

  /** A present share in a frame of non-negative weights means the column total is positive. */
  lemma {:induction false} TotalPositive(col: seq<Row>, ls: seq<Line>, i: int)
    requires NonNegativeColumn(col) && IsCumulativeFrame(col, ls, ByShare)
    requires 0 <= i < |ls| && ls[i].share.Some?
    ensures Total(col) > 0.0
  {
    FrameSharesOver(col, ls, ByShare);
    assert Entries(ls)[i] == LineEntry(ls[i]);
    assert NonNegative(Map(col, RowValue));
    SumNonNegative(Map(col, RowValue));
  }

  /**
   What the last retained row says about the selection: its running share sum is the retained
   share sum, which is below `c`, so the retained weight is below `c` times the column total.
   */
  lemma {:induction false} CumBelowBound(col: seq<Row>, ls: seq<Line>, c: real, k: int)
    requires NonNegativeColumn(col) && IsCumulativeFrame(col, ls, ByShare)
    requires 0 < k <= |ls| && Lt(ls[k - 1].cum, c)
    ensures Sum(Map(Entries(ls[..k]), EntryShare)) < c
    ensures Sum(Map(Entries(ls[..k]), EntryValue)) < c * Total(col)
  {
    TotalPositive(col, ls, k - 1);
    FrameSharesOver(col, ls, ByShare);
    PrefixBound(ls, Total(col), c, k);
  }

  lemma {:induction false} PrefixBound(ls: seq<Line>, total: real, c: real, k: int)
    requires RunningSumOf(ls, ByShare) && SharesOver(Entries(ls), total) && total > 0.0
    requires 0 < k <= |ls| && Lt(ls[k - 1].cum, c)
    ensures Sum(Map(Entries(ls[..k]), EntryShare)) < c
    ensures Sum(Map(Entries(ls[..k]), EntryValue)) < c * total
  {
    var pre := Entries(ls[..k]);
    RunningShareSum(ls, k);
    MapPrefix(ls, LineEntry, k);
    assert SharesOver(pre, total);
    ShareSum(pre, total);
    DivBelow(Sum(Map(pre, EntryValue)), total, c);
  }

  /**
   The facts `FilterCumSumPercentage` promises for a column of non-negative weights, for every
   ranking the unstable sort may produce: the rows kept are a prefix of that ranking, a row is kept
   exactly when its running share is below `c`, and the kept shares and weights stay below the bound.
   */
  lemma {:induction false} CumSumSelection(col: seq<Row>, ls: seq<Line>, c: real)
    requires NonNegativeColumn(col) && IsCumulativeFrame(col, ls, ByShare)
    ensures var kept := Keep(ls, CumBelow(c));
      && kept == ls[..|kept|]
      && (forall i :: 0 <= i < |ls| ==> (Lt(ls[i].cum, c) <==> i < |kept|))
      && (|kept| > 0 ==>
            Sum(Map(Entries(kept), EntryShare)) < c && Sum(Map(Entries(kept), EntryValue)) < c * Total(col))
  {
    var kept := Keep(ls, CumBelow(c));
    CumBelowPrefix(col, ls, c);
    if |kept| > 0 {
      CumBelowBound(col, ls, c, |kept|);
    }
  }

  /**
   The selection `msoa_filter_cumsum_percentage` reports for one ranked frame: the rows whose
   running share is strictly below `c`.
   */
  function CumSumSelect(ls: seq<Line>, c: real): Selection {
    Summarize(Entries(Keep(ls, CumBelow(c))))
  }

  /** `CumSumSelection` restated for the four scalars of the selection, for every ranking. */
  lemma {:induction false} CumSumSummary(col: seq<Row>, ls: seq<Line>, c: real)
    requires NonNegativeColumn(col) && IsCumulativeFrame(col, ls, ByShare)
    ensures var s := CumSumSelect(ls, c);
      && s.count <= |ls|
      && s.filtered == Map(ls[..s.count], LineDest)
      && (forall i :: 0 <= i < |ls| ==> (Lt(ls[i].cum, c) <==> i < s.count))
      && (s.count > 0 ==> s.commuters < c * Total(col) && s.percentageSum < c * 100.0 + 0.05)
      && s.commuters == Sum(Map(Entries(Keep(ls, CumBelow(c))), EntryValue))
      && -0.05 <= s.percentageSum - Sum(Map(Entries(Keep(ls, CumBelow(c))), EntryShare)) * 100.0 <= 0.05
  {
    var kept := Keep(ls, CumBelow(c));
    var s := CumSumSelect(ls, c);
    CumSumSelection(col, ls, c);
    MapPrefix(ls, LineDest, |kept|);
    assert Map(kept, LineDest) == Map(Entries(kept), EntryDest);
    if s.count > 0 {
      var shares := Sum(Map(Entries(kept), EntryShare));
      assert shares < c;
      assert shares * 100.0 < c * 100.0;
    }
  }

  /**
   `msoa_filter_cumsum_percentage` on one column: rank by share, take the running share sum and
   keep the rows whose running sum is strictly below `c`. A threshold outside [0, 1] is only
   reported on the console; the filter runs regardless. The model ranks with `RankedFrame`;
   `CumSumSummary` gives the same facts for every other ranking the sort may produce.
   */
  function FilterCumSumPercentage(col: seq<Row>, c: real): (s: Selection)
    ensures s.count == |s.filtered|
    ensures NonNegativeColumn(col) ==>
      s.count <= |col| && s.filtered == Map(RankedFrame(col, ByShare)[..s.count], LineDest)
    ensures NonNegativeColumn(col) ==> forall i :: 0 <= i < |col| ==>
      (Lt(RankedFrame(col, ByShare)[i].cum, c) <==> i < s.count)
    ensures NonNegativeColumn(col) && s.count > 0 ==>
      s.commuters < c * Total(col) && s.percentageSum < c * 100.0 + 0.05
    ensures s.commuters == Sum(Map(Entries(Keep(RankedFrame(col, ByShare), CumBelow(c))), EntryValue))
    ensures -0.05 <= s.percentageSum - Sum(Map(Entries(Keep(RankedFrame(col, ByShare), CumBelow(c))), EntryShare)) * 100.0 <= 0.05
  {
    // Both branches give the same selection; the first only brings `CumSumSummary` into scope.
    if NonNegativeColumn(col) then
      CumSumSummary(col, RankedFrame(col, ByShare), c);
      CumSumSelect(RankedFrame(col, ByShare), c)
    else
      CumSumSelect(RankedFrame(col, ByShare), c)
  }

  // ---------------------------------------------------------------------------------------------
  // The plotted cumulative curves
  // ---------------------------------------------------------------------------------------------

  /** `value_type` of the CDF plot: running sums of raw weights, or of shares in percent. */
  datatype ValueType = Absolute | Percentage

  /** The cut-off cumulative frame a CDF plot draws for one column. */
  function CdfFrame(col: seq<Row>, vt: ValueType): Cumulative {
    if vt == Absolute then CreateCumSumAbsValue(col, true) else CreateCumSumPercentage(col, true)
  }

  /** The running-sum cell of one row as plotted: as is, or times 100 for percentages. */
  function PlotPoint(vt: ValueType): Line -> Value {
    (l: Line) => if vt == Absolute then l.cum else Mul(l.cum, Some(100.0))
  }

  /** With every key strictly positive, every running sum is present and above 0. */
  lemma {:induction false} RunningSumPositive(ls: seq<Line>, rank: RankBy, i: int)
    requires RunningSumOf(ls, rank)
    requires forall k :: 0 <= k < |ls| ==> Gt(LineKeyOf(ls[k], rank), 0.0)
    requires 0 <= i < |ls|
    ensures ls[i].cum.Some? && ls[i].cum.value > 0.0
  {
    var keys := Map(ls, LineKey(rank));
    MapPrefix(ls, LineKey(rank), i + 1);
    PositiveKeysSum(keys[..i + 1]);
  }

  /** With every key strictly positive, the running sum strictly increases down the frame. */
  lemma {:induction false} RunningSumIncreases(ls: seq<Line>, rank: RankBy, i: int, j: int)
    requires RunningSumOf(ls, rank)
    requires forall k :: 0 <= k < |ls| ==> Gt(LineKeyOf(ls[k], rank), 0.0)
    requires 0 <= i < j < |ls|
    ensures ls[i].cum.Some? && ls[j].cum.Some? && ls[i].cum.value < ls[j].cum.value
  {
    var keys := Map(ls, LineKey(rank));
    assert Gt(LineKeyOf(ls[i], rank), 0.0) && Gt(LineKeyOf(ls[j], rank), 0.0);
    CumAt(ls, rank, i);
    CumAt(ls, rank, j);
    PositiveKeys(ls, rank);
    PrefixSumsIncrease(keys, i, j);
  }

  lemma PositiveKeys(ls: seq<Line>, rank: RankBy)
    requires forall k :: 0 <= k < |ls| ==> Gt(LineKeyOf(ls[k], rank), 0.0)
    ensures forall k :: 0 <= k < |ls| ==> Gt(Map(ls, LineKey(rank))[k], 0.0)
  {
  }

  /** Over a column of positive cells, a longer prefix has a strictly larger sum. */
  lemma PrefixSumsIncrease(keys: seq<Value>, i: int, j: int)
    requires 0 <= i < j < |keys| && forall k :: 0 <= k < |keys| ==> Gt(keys[k], 0.0)
    ensures Sum(keys[..i + 1]) < Sum(keys[..j + 1])
  {
    PositiveSlice(keys, i + 1, j + 1);
    SumGrows(keys, i + 1, j + 1);
  }

  /** In a sorted frame a row before a row with a present key has a present key too. */
  lemma SortedKeys(ls: seq<Line>, rank: RankBy, i: int, j: int)
    requires Sorted(Entries(ls), rank) && 0 <= i < j < |ls|
    ensures AtLeast(LineKeyOf(ls[i], rank), LineKeyOf(ls[j], rank))
  {
    assert Entries(ls)[i] == LineEntry(ls[i]) && Entries(ls)[j] == LineEntry(ls[j]);
    assert AtLeast(Key(Entries(ls)[i], rank), Key(Entries(ls)[j], rank));
  }

  /** The running sum at a row with a present key, as a sum over a prefix of the key column. */
  lemma CumAt(ls: seq<Line>, rank: RankBy, i: int)
    requires RunningSumOf(ls, rank) && 0 <= i < |ls| && LineKeyOf(ls[i], rank).Some?
    ensures ls[i].cum == Some(Sum(Map(ls, LineKey(rank))[..i + 1]))
  {
    MapPrefix(ls, LineKey(rank), i + 1);
  }

  lemma PositiveSlice(keys: seq<Value>, a: int, b: int)
    requires 0 <= a <= b <= |keys| && forall k :: 0 <= k < |keys| ==> Gt(keys[k], 0.0)
    ensures forall k :: 0 <= k < |keys[a..b]| ==> Gt(keys[a..b][k], 0.0)
  {
    forall k | 0 <= k < |keys[a..b]| ensures Gt(keys[a..b][k], 0.0) {
      assert keys[a..b][k] == keys[a + k];
    }
  }

  /** Adding positive cells to a prefix makes its sum strictly larger. */
  lemma SumGrows(keys: seq<Value>, a: int, b: int)
    requires 0 < a < b <= |keys| && forall k :: 0 <= k < |keys[a..b]| ==> Gt(keys[a..b][k], 0.0)
    ensures Sum(keys[..a]) < Sum(keys[..b])
  {
    assert keys[..b] == keys[..a] + keys[a..b];
    SumAppend(keys[..a], keys[a..b]);
    PositiveKeysSum(keys[a..b]);
  }

  lemma {:induction false} PositiveKeysSum(xs: seq<Value>)
    requires |xs| > 0 && forall k :: 0 <= k < |xs| ==> Gt(xs[k], 0.0)
    ensures Sum(xs) > 0.0
    decreases |xs|
  {
    if |xs| > 1 {
      PositiveKeysSum(xs[1..]);
    }
  }

  /** Every point is present and strictly above every point before it. */
  predicate Rising(r: seq<Value>) {
    forall i, j :: 0 <= i < j < |r| ==> r[i].Some? && r[j].Some? && r[i].value < r[j].value
  }

  /** Prefixed by 0, the plotted running sums of rows with positive keys rise strictly. */
  lemma {:induction false} SeriesRises(ls: seq<Line>, rank: RankBy, vt: ValueType)
    requires RunningSumOf(ls, rank)
    requires forall k :: 0 <= k < |ls| ==> Gt(LineKeyOf(ls[k], rank), 0.0)
    ensures Rising([Some(0.0)] + Map(ls, PlotPoint(vt)))
    ensures forall k :: 0 <= k < |ls| ==> ([Some(0.0)] + Map(ls, PlotPoint(vt)))[k + 1] == PlotPoint(vt)(ls[k])
  {
    CumsRise(ls, rank);
    var r := [Some(0.0)] + Map(ls, PlotPoint(vt));
    forall i, j | 0 <= i < j < |r| ensures r[i].Some? && r[j].Some? && r[i].value < r[j].value {
      SeriesPairRises(ls, vt, i, j);
    }
  }

  /** Every running sum is present, above 0 and above every running sum before it. */
  predicate CumRising(ls: seq<Line>) {
    && (forall k :: 0 <= k < |ls| ==> ls[k].cum.Some? && ls[k].cum.value > 0.0)
    && (forall a, b :: 0 <= a < b < |ls| ==> ls[a].cum.Some? && ls[b].cum.Some? && ls[a].cum.value < ls[b].cum.value)
  }

  lemma CumsRise(ls: seq<Line>, rank: RankBy)
    requires RunningSumOf(ls, rank)
    requires forall k :: 0 <= k < |ls| ==> Gt(LineKeyOf(ls[k], rank), 0.0)
    ensures CumRising(ls)
  {
    forall k | 0 <= k < |ls| ensures ls[k].cum.Some? && ls[k].cum.value > 0.0 {
      RunningSumPositive(ls, rank, k);
    }
    forall a, b | 0 <= a < b < |ls| ensures ls[a].cum.Some? && ls[b].cum.Some? && ls[a].cum.value < ls[b].cum.value {
      RunningSumIncreases(ls, rank, a, b);
    }
  }

  lemma {:induction false} SeriesPairRises(ls: seq<Line>, vt: ValueType, i: int, j: int)
    requires CumRising(ls)
    requires 0 <= i < j <= |ls|
    ensures var r := [Some(0.0)] + Map(ls, PlotPoint(vt));
      r[i].Some? && r[j].Some? && r[i].value < r[j].value
  {
    var r := [Some(0.0)] + Map(ls, PlotPoint(vt));
    assert r[j] == PlotPoint(vt)(ls[j - 1]);
    PlotPointPositive(ls[j - 1], vt);
    if i > 0 {
      assert r[i] == PlotPoint(vt)(ls[i - 1]);
      PlotPointOrder(ls[i - 1], ls[j - 1], vt);
    } else {
      assert r[i] == Some(0.0);
    }
  }

  lemma PlotPointPositive(l: Line, vt: ValueType)
    requires l.cum.Some? && l.cum.value > 0.0
    ensures PlotPoint(vt)(l).Some? && PlotPoint(vt)(l).value > 0.0
  {
  }

  lemma PlotPointOrder(a: Line, b: Line, vt: ValueType)
    requires a.cum.Some? && b.cum.Some? && a.cum.value < b.cum.value
    ensures PlotPoint(vt)(a).Some? && PlotPoint(vt)(b).Some? && PlotPoint(vt)(a).value < PlotPoint(vt)(b).value
  {
  }

  /** The retained rows of the share-ranked cut-off frame keep their shares over the column total. */
  lemma {:induction false} RetainedSharesOver(col: seq<Row>)
    ensures SharesOver(Entries(CreateCumSumPercentage(col, true).retained), Total(col))
  {
    var full := RankedFrame(col, ByShare);
    var k := CreateCumSumPercentage(col, true).count;
    CutOffIsPrefix(col, ByShare);
    FrameSharesOver(col, full, ByShare);
    MapPrefix(full, LineEntry, k);
  }

  /** The last running share sum of rows whose shares are over `total` is their weight over `total`. */
  lemma {:induction false} LastShareSum(ls: seq<Line>, total: real, commuters: real)
    requires RunningSumOf(ls, ByShare) && SharesOver(Entries(ls), total)
    requires |ls| > 0 && ls[|ls| - 1].cum.Some? && commuters == Sum(Map(ls, LineValue))
    ensures ls[|ls| - 1].cum == Div(Some(commuters), total)
  {
    var k := |ls|;
    assert ls[..k] == ls;
    RunningShareSum(ls, k);
    assert Entries(ls)[k - 1] == LineEntry(ls[k - 1]);
    assert total != 0.0;
    ShareSum(Entries(ls), total);
    LineValues(ls);
  }

  /** The last running share sum of the cut-off frame is the retained weight over the column total. */
  lemma {:induction false} PercentageEnd(col: seq<Row>)
    requires exists i :: 0 <= i < |col| && Gt(WithShares(col)[i].share, 0.0)
    ensures var c := CreateCumSumPercentage(col, true);
      c.count > 0 && c.retained[|c.retained| - 1].cum == Div(Some(c.commuters), Total(col))
  {
    var i :| 0 <= i < |col| && Gt(WithShares(col)[i].share, 0.0);
    CutOffKeepsPositive(col, ByShare, i);
    var c := CreateCumSumPercentage(col, true);
    var ls := c.retained;
    RetainedSharesOver(col);
    RunningSumPositive(ls, ByShare, |ls| - 1);
    LastShareSum(ls, Total(col), c.commuters);
  }

  /**
   The series a CDF plot draws for one column: 0 followed by the running sums of the cut-off
   frame, times 100 for percentages. It has one point per retained destination plus the origin
   and rises strictly.
   */
  function PlotSeries(col: seq<Row>, vt: ValueType): (r: seq<Value>)
    ensures |r| == CdfFrame(col, vt).count + 1
    ensures r[0] == Some(0.0)
    ensures Rising(r)
    ensures forall k :: 0 <= k < CdfFrame(col, vt).count ==> r[k + 1] == PlotPoint(vt)(CdfFrame(col, vt).retained[k])
  {
    var c := CdfFrame(col, vt);
    SeriesRises(c.retained, if vt == Absolute then ByValue else ByShare, vt);
    [Some(0.0)] + Map(c.retained, PlotPoint(vt))
  }

  /** The absolute curve ends at the retained number of commuters. */
  lemma {:induction false} AbsoluteSeriesEnd(col: seq<Row>)
    ensures var r := PlotSeries(col, Absolute);
      r[|r| - 1] == Some(CdfFrame(col, Absolute).commuters)
  {
    var c := CdfFrame(col, Absolute);
    if c.count > 0 {
      CutOffFrameEndsAtSum(c);
      SeriesLast(col, Absolute);
    } else {
      var r := PlotSeries(col, Absolute);
      assert r == [Some(0.0)] + Map(c.retained, PlotPoint(Absolute));
    }
  }

  /** The percentage curve ends at the retained weight as a percentage of the column total. */
  lemma {:induction false} PercentageSeriesEnd(col: seq<Row>)
    requires exists i :: 0 <= i < |col| && Gt(WithShares(col)[i].share, 0.0)
    ensures var r := PlotSeries(col, Percentage);
      |r| > 1 && r[|r| - 1] == Mul(Div(Some(CdfFrame(col, Percentage).commuters), Total(col)), Some(100.0))
  {
    PercentageEnd(col);
    assert CdfFrame(col, Percentage) == CreateCumSumPercentage(col, true);
    SeriesLast(col, Percentage);
  }

  /** The last point of a curve with retained rows is the plotted running sum of the last retained row. */
  lemma SeriesLast(col: seq<Row>, vt: ValueType)
    ensures var c, r := CdfFrame(col, vt), PlotSeries(col, vt);
      c.count > 0 ==> |r| > 1 && r[|r| - 1] == PlotPoint(vt)(c.retained[c.count - 1])
  {
    var c := CdfFrame(col, vt);
    var r := PlotSeries(col, vt);
    assert r == [Some(0.0)] + Map(c.retained, PlotPoint(vt));
  }
}
