/**
 pandas `cumsum()`: the running sum of a column taken in row order. A missing cell stays missing in
 the output, and the running sum carries on past it as if it were 0.
 */
module RunningSum {
  import opened Wrappers
  import opened Missing

  /** The running sum at every row: the sum of all cells up to and including that row. */
  function CumSum(xs: seq<Value>): (r: seq<Value>)
    ensures |r| == |xs|
    ensures forall i :: 0 <= i < |xs| ==>
      r[i] == (if xs[i].Some? then Some(Sum(xs[..i + 1])) else None)
  {
    CumSumFrom(0.0, xs)
  }

  /** The running sum started from `acc`, computed one row at a time. */
  function CumSumFrom(acc: real, xs: seq<Value>): (r: seq<Value>)
    ensures |r| == |xs|
    ensures forall i :: 0 <= i < |xs| ==>
      r[i] == (if xs[i].Some? then Some(acc + Sum(xs[..i + 1])) else None)
    decreases |xs|
  {
    if |xs| == 0 then []
    else
      var head := if xs[0].Some? then Some(acc + xs[0].value) else None;
      var rest := CumSumFrom(acc + Or0(xs[0]), xs[1..]);
      PrefixSumSplit(xs);
      [head] + rest
  }

  /** A prefix sum is the first cell plus the prefix sum of the tail. */
  lemma PrefixSumSplit(xs: seq<Value>)
    requires |xs| > 0
    ensures forall i :: 0 <= i < |xs| ==> Sum(xs[..i + 1]) == Or0(xs[0]) + Sum(xs[1..][..i])
  {
    forall i | 0 <= i < |xs| ensures Sum(xs[..i + 1]) == Or0(xs[0]) + Sum(xs[1..][..i]) {
      assert xs[..i + 1][1..] == xs[1..][..i];
    }
  }

  /** Over non-negative cells the running sum never decreases. */
  lemma CumSumMonotone(xs: seq<Value>, i: int, j: int)
    requires NonNegative(xs)
    requires 0 <= i < j < |xs| && xs[i].Some? && xs[j].Some?
    ensures CumSum(xs)[i].value <= CumSum(xs)[j].value
  {
    PrefixSumMonotone(xs, i + 1, j + 1);
  }
}
