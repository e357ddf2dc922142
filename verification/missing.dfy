/**
 Arithmetic over cells that may be missing, following the pandas conventions the scripts rely on:
 reductions skip missing cells, an empty or all-missing reduction sums to 0, every strict
 comparison with a missing cell is false, and arithmetic with a missing operand is missing.
 */
module Missing {
  import opened Wrappers
  import opened Seqs

  type Value = Option<real>

  /** The value a cell contributes to a skip-missing sum. */
  function Or0(v: Value): real {
    v.GetOr(0.0)
  }

  /** pandas `Series.sum()`: missing cells are skipped, the empty sum is 0. */
  function Sum(xs: seq<Value>): real {
    if |xs| == 0 then 0.0 else Or0(xs[0]) + Sum(xs[1..])
  }

  /** Number of present (non-missing) cells, the divisor of pandas `mean`. */
  function CountPresent(xs: seq<Value>): nat {
    if |xs| == 0 then 0 else (if xs[0].Some? then 1 else 0) + CountPresent(xs[1..])
  }

  /** Strict `>` as pandas evaluates it: false whenever the cell is missing. */
  predicate Gt(v: Value, t: real) {
    v.Some? && v.value > t
  }

  /** Strict `<` as pandas evaluates it: false whenever the cell is missing. */
  predicate Lt(v: Value, t: real) {
    v.Some? && v.value < t
  }

  /** Division of a cell by a total; missing when the cell is missing or the total is 0. */
  function Div(v: Value, d: real): (r: Value)
    ensures r.Some? <==> v.Some? && d != 0.0
    ensures r.Some? ==> r.value * d == v.value
  {
    if v.None? || d == 0.0 then None else Some(v.value / d)
  }

  /** Product of two cells; missing when either is missing. */
  function Mul(a: Value, b: Value): (r: Value)
    ensures r.Some? <==> a.Some? && b.Some?
  {
    if a.Some? && b.Some? then Some(a.value * b.value) else None
  }

  /** Every present cell is non-negative (trip counts, minutes and their products). */
  predicate NonNegative(xs: seq<Value>) {
    forall i :: 0 <= i < |xs| ==> Or0(xs[i]) >= 0.0
  }

  /**
   Each cell divided by the skip-missing sum of all cells: the pandas idiom `s / s.sum()` (one
   column) and `df.div(df.sum(axis=1), axis=0)` (one row).
   */
  function Normalize(xs: seq<Value>): (r: seq<Value>)
    ensures |r| == |xs|
    ensures forall i :: 0 <= i < |xs| ==> (r[i].Some? <==> xs[i].Some? && Sum(xs) != 0.0)
    ensures forall i :: 0 <= i < |xs| && r[i].Some? ==> r[i].value * Sum(xs) == xs[i].value
  {
    DivAll(xs, Sum(xs))
  }

  /** Every cell divided by the same divisor. */
  function DivAll(xs: seq<Value>, d: real): (r: seq<Value>)
    ensures |r| == |xs|
    ensures forall i :: 0 <= i < |xs| ==> r[i] == Div(xs[i], d)
  {
    if |xs| == 0 then [] else [Div(xs[0], d)] + DivAll(xs[1..], d)
  }

  lemma {:induction false} SumAppend(a: seq<Value>, b: seq<Value>)
    ensures Sum(a + b) == Sum(a) + Sum(b)
    decreases |a|
  {
    if |a| == 0 {
      assert a + b == b;
    } else {
      assert (a + b)[1..] == a[1..] + b;
      SumAppend(a[1..], b);
    }
  }

  /** The sum of a prefix extended by one cell. */
  lemma SumSnoc(xs: seq<Value>, i: int)
    requires 0 <= i < |xs|
    ensures Sum(xs[..i + 1]) == Sum(xs[..i]) + Or0(xs[i])
  {
    assert xs[..i + 1] == xs[..i] + [xs[i]];
    SumAppend(xs[..i], [xs[i]]);
  }

  lemma {:induction false} SumNonNegative(xs: seq<Value>)
    requires NonNegative(xs)
    ensures Sum(xs) >= 0.0
    decreases |xs|
  {
    if |xs| > 0 {
      assert NonNegative(xs[1..]) by {
        forall i | 0 <= i < |xs[1..]| ensures Or0(xs[1..][i]) >= 0.0 {
          assert xs[1..][i] == xs[i + 1];
        }
      }
      SumNonNegative(xs[1..]);
    }
  }

  /** Over non-negative cells a longer prefix never sums to less. */
  lemma PrefixSumMonotone(xs: seq<Value>, i: int, j: int)
    requires NonNegative(xs)
    requires 0 <= i <= j <= |xs|
    ensures Sum(xs[..i]) <= Sum(xs[..j])
  {
    assert xs[..j] == xs[..i] + xs[i..j];
    SumAppend(xs[..i], xs[i..j]);
    assert NonNegative(xs[i..j]) by {
      forall k | 0 <= k < |xs[i..j]| ensures Or0(xs[i..j][k]) >= 0.0 {
        assert xs[i..j][k] == xs[i + k];
      }
    }
    SumNonNegative(xs[i..j]);
  }

  /** A sum divided cell by cell is the divided sum. */
  lemma {:induction false} SumDiv(xs: seq<Value>, d: real)
    requires d != 0.0
    ensures Sum(DivAll(xs, d)) == Sum(xs) / d
    decreases |xs|
  {
    if |xs| > 0 {
      var ys := DivAll(xs, d);
      assert ys[1..] == DivAll(xs[1..], d);
      SumDiv(xs[1..], d);
      assert Or0(ys[0]) == Or0(xs[0]) / d;
      DivAdd(Or0(xs[0]), Sum(xs[1..]), d);
    }
  }

  lemma DivAdd(a: real, b: real, d: real)
    requires d != 0.0
    ensures a / d + b / d == (a + b) / d
  {
  }

  /** The shares of a row or column sum to 1 whenever its total is not 0. */
  lemma NormalizeSumsToOne(xs: seq<Value>)
    requires Sum(xs) != 0.0
    ensures Sum(Normalize(xs)) == 1.0
  {
    assert Normalize(xs) == DivAll(xs, Sum(xs));
    var d := Sum(xs);
    SumDiv(xs, d);
    DivSelf(d);
  }

  lemma DivSelf(d: real)
    requires d != 0.0
    ensures d / d == 1.0
  {
  }

  /** With a zero total every share is missing. */
  lemma NormalizeZeroTotal(xs: seq<Value>)
    requires Sum(xs) == 0.0
    ensures forall i :: 0 <= i < |xs| ==> Normalize(xs)[i].None?
  {
  }

  /** Shares of non-negative cells are non-negative. */
  lemma NormalizeNonNegative(xs: seq<Value>)
    requires NonNegative(xs)
    ensures NonNegative(Normalize(xs))
  {
    SumNonNegative(xs);
    var r := Normalize(xs);
    forall i | 0 <= i < |xs| ensures Or0(r[i]) >= 0.0 {
      if r[i].Some? {
        assert Sum(xs) > 0.0;
        assert xs[i].value >= 0.0;
        assert r[i].value == xs[i].value / Sum(xs);
      }
    }
  }

  /** Reordering the cells does not change a skip-missing sum. */
  lemma {:induction false} SumPermutation<T>(a: seq<T>, b: seq<T>, f: T -> Value)
    requires multiset(a) == multiset(b)
    ensures Sum(Map(a, f)) == Sum(Map(b, f))
    decreases |a|
  {
    if |a| == 0 {
      assert |b| == |multiset(b)| == 0;
    } else {
      assert a[0] in multiset(b);
      var k :| 0 <= k < |b| && b[k] == a[0];
      var rest := b[..k] + b[k + 1..];
      RemoveAtMultiset(a, b, k);
      SumPermutation(a[1..], rest, f);
      SumRemoveAt(b, k, f);
      assert Map(a, f) == [f(a[0])] + Map(a[1..], f);
    }
  }

  /** Taking the same element out of two permutations of each other leaves permutations. */
  lemma RemoveAtMultiset<T>(a: seq<T>, b: seq<T>, k: int)
    requires multiset(a) == multiset(b) && |a| > 0 && 0 <= k < |b| && b[k] == a[0]
    ensures multiset(a[1..]) == multiset(b[..k] + b[k + 1..])
  {
    var rest := b[..k] + b[k + 1..];
    assert b == b[..k] + [b[k]] + b[k + 1..];
    assert a == [a[0]] + a[1..];
    assert multiset(b) == multiset(b[..k]) + multiset{b[k]} + multiset(b[k + 1..]);
    assert multiset(rest) == multiset(b[..k]) + multiset(b[k + 1..]);
    assert multiset(a[1..]) == multiset(a) - multiset{a[0]};
    assert multiset(rest) == multiset(b) - multiset{b[k]};
  }

  /** The sum over a sequence is one element's cell plus the sum over the others. */
  lemma SumRemoveAt<T>(b: seq<T>, k: int, f: T -> Value)
    requires 0 <= k < |b|
    ensures Sum(Map(b, f)) == Or0(f(b[k])) + Sum(Map(b[..k] + b[k + 1..], f))
  {
    SplitAt(b, k);
    SumSplitAt(b[..k], b[k], b[k + 1..], f);
  }

  lemma SplitAt<T>(b: seq<T>, k: int)
    requires 0 <= k < |b|
    ensures b == b[..k] + ([b[k]] + b[k + 1..])
  {
    assert b[k..] == [b[k]] + b[k + 1..];
    assert b == b[..k] + b[k..];
  }

  lemma SumSplitAt<T>(p: seq<T>, x: T, q: seq<T>, f: T -> Value)
    ensures Sum(Map(p + ([x] + q), f)) == Or0(f(x)) + Sum(Map(p + q, f))
  {
    MapAppend(p, [x] + q, f);
    SumAppend(Map(p, f), Map([x] + q, f));
    SumCons(x, q, f);
    MapAppend(p, q, f);
    SumAppend(Map(p, f), Map(q, f));
  }

  lemma SumCons<T>(x: T, q: seq<T>, f: T -> Value)
    ensures Sum(Map([x] + q, f)) == Or0(f(x)) + Sum(Map(q, f))
  {
    assert Map([x] + q, f) == [f(x)] + Map(q, f);
    assert ([f(x)] + Map(q, f))[1..] == Map(q, f);
  }

  /** The skip-missing sum of `f` over the elements that satisfy `p`, in one pass. */
  function SumWhere<T>(xs: seq<T>, p: T -> bool, f: T -> Value): real {
    if |xs| == 0 then 0.0
    else (if p(xs[0]) then Or0(f(xs[0])) else 0.0) + SumWhere(xs[1..], p, f)
  }

  /** Summing over the kept elements is summing over the elements that satisfy the filter. */
  lemma {:induction false} SumKeep<T>(xs: seq<T>, p: T -> bool, f: T -> Value)
    ensures Sum(Map(Keep(xs, p), f)) == SumWhere(xs, p, f)
    decreases |xs|
  {
    if |xs| > 0 {
      SumKeep(xs[1..], p, f);
      if p(xs[0]) {
        assert Map(Keep(xs, p), f) == [f(xs[0])] + Map(Keep(xs[1..], p), f);
      }
    }
  }

  /** Filtered sums over two sequences agree when the filters and the summands agree position by position. */
  lemma {:induction false} SumWhereCorrespond<A, B>(a: seq<A>, p: A -> bool, f: A -> Value,
                                                    b: seq<B>, q: B -> bool, g: B -> Value)
    requires |a| == |b|
    requires forall i :: 0 <= i < |a| ==> p(a[i]) == q(b[i]) && f(a[i]) == g(b[i])
    ensures SumWhere(a, p, f) == SumWhere(b, q, g)
    decreases |a|
  {
    if |a| > 0 {
      assert forall i :: 0 < i < |a| ==> a[1..][i - 1] == a[i] && b[1..][i - 1] == b[i];
      SumWhereCorrespond(a[1..], p, f, b[1..], q, g);
    }
  }

  /** A series with every cell missing sums to 0. */
  lemma {:induction false} SumAllMissing(xs: seq<Value>)
    requires forall i :: 0 <= i < |xs| ==> xs[i].None?
    ensures Sum(xs) == 0.0
    decreases |xs|
  {
    if |xs| > 0 {
      assert forall i :: 0 < i < |xs| ==> xs[1..][i - 1] == xs[i];
      SumAllMissing(xs[1..]);
    }
  }

  /** For non-negative `f` the filtered sum is at most the sum over everything. */
  lemma {:induction false} SumWhereAtMost<T>(xs: seq<T>, p: T -> bool, f: T -> Value)
    requires NonNegative(Map(xs, f))
    ensures SumWhere(xs, p, f) <= Sum(Map(xs, f))
    decreases |xs|
  {
    if |xs| > 0 {
      assert Map(xs, f) == [f(xs[0])] + Map(xs[1..], f);
      assert NonNegative(Map(xs[1..], f)) by {
        forall i | 0 <= i < |xs| - 1 ensures Or0(Map(xs[1..], f)[i]) >= 0.0 {
          assert Map(xs[1..], f)[i] == Map(xs, f)[i + 1];
        }
      }
      SumWhereAtMost(xs[1..], p, f);
    }
  }

  /** pandas `Series.mean()`: the sum of the present cells over their number; missing if there are none. */
  function Mean(xs: seq<Value>): (r: Value)
    ensures r.Some? <==> CountPresent(xs) > 0
    ensures r.Some? ==> r.value * (CountPresent(xs) as real) == Sum(xs)
  {
    if CountPresent(xs) == 0 then None else Some(Sum(xs) / (CountPresent(xs) as real))
  }

  /** pandas `Series.max()`: the largest present cell; missing if there are none. */
  function Max(xs: seq<Value>): (r: Value)
    ensures r.Some? <==> CountPresent(xs) > 0
    ensures r.Some? ==> forall i :: 0 <= i < |xs| && xs[i].Some? ==> xs[i].value <= r.value
    ensures r.Some? ==> exists i :: 0 <= i < |xs| && xs[i] == r
  {
    if |xs| == 0 then None
    else
      var m := Max(xs[1..]);
      assert forall i :: 0 < i < |xs| ==> xs[i] == xs[1..][i - 1];
      NoneWhenNothingPresent(xs[1..]);
      if xs[0].None? then m
      else if m.None? || xs[0].value >= m.value then xs[0]
      else m
  }

  /** With no present cell every cell is missing. */
  lemma {:induction false} NoneWhenNothingPresent(xs: seq<Value>)
    ensures CountPresent(xs) == 0 <==> forall i :: 0 <= i < |xs| ==> xs[i].None?
    decreases |xs|
  {
    if |xs| > 0 {
      NoneWhenNothingPresent(xs[1..]);
      assert forall i :: 0 < i < |xs| ==> xs[i] == xs[1..][i - 1];
    }
  }

  /** The sum of the present cells is at most their number times any bound on them. */
  lemma {:induction false} SumAtMost(xs: seq<Value>, bound: real)
    requires forall i :: 0 <= i < |xs| && xs[i].Some? ==> xs[i].value <= bound
    ensures Sum(xs) <= (CountPresent(xs) as real) * bound
    decreases |xs|
  {
    if |xs| > 0 {
      assert forall i :: 0 < i < |xs| ==> xs[i] == xs[1..][i - 1];
      SumAtMost(xs[1..], bound);
      var c := CountPresent(xs[1..]) as real;
      assert (CountPresent(xs) as real) * bound == (if xs[0].Some? then bound else 0.0) + c * bound;
    }
  }

  /** The mean of a series never exceeds a bound on its present cells. */
  lemma MeanAtMost(xs: seq<Value>, bound: real)
    requires CountPresent(xs) > 0
    requires forall i :: 0 <= i < |xs| && xs[i].Some? ==> xs[i].value <= bound
    ensures Mean(xs).value <= bound
  {
    var n := CountPresent(xs) as real;
    var s := Sum(xs);
    SumAtMost(xs, bound);
    assert s <= n * bound;
    DivAtMost(s, n, bound);
  }

  /** The mean of a series never exceeds its maximum. */
  lemma MeanAtMostMax(xs: seq<Value>)
    requires CountPresent(xs) > 0
    ensures Mean(xs).value <= Max(xs).value
  {
    MeanAtMost(xs, Max(xs).value);
  }

  lemma DivAtMost(s: real, n: real, m: real)
    requires n > 0.0 && s <= n * m
    ensures s / n <= m
  {
  }

  /** The sum of a three-cell row. */
  lemma SumOfThree(xs: seq<Value>)
    requires |xs| == 3
    ensures Sum(xs) == Or0(xs[0]) + Or0(xs[1]) + Or0(xs[2])
  {
    var t := xs[1..];
    assert Sum(xs) == Or0(xs[0]) + Sum(t);
    assert Sum(t) == Or0(t[0]) + Sum(t[1..]);
    assert t[1..][1..] == [];
    assert Sum(t[1..]) == Or0(t[1..][0]) + Sum(t[1..][1..]);
  }
}
