/**
 `sort_values(by=..., ascending=False)`: rows ordered by a key from highest to lowest, missing keys
 last. pandas' default sort is not stable, so the model promises only what every run shares: the
 result is a permutation of the rows and is ordered by the key.
 */
module Ranking {
  import opened Wrappers
  import opened Missing
  import opened Column

  /** The column a frame is sorted by: the raw weight or the 'percentage' share. */
  datatype RankBy = ByValue | ByShare

  function Key(e: Entry, rank: RankBy): Value {
    match rank
    case ByValue => e.value
    case ByShare => e.share
  }

  /** `a` may come before `b` in a descending order that puts missing values last. */
  predicate AtLeast(a: Value, b: Value) {
    b.None? || (a.Some? && a.value >= b.value)
  }

  predicate Sorted(es: seq<Entry>, rank: RankBy) {
    forall i, j :: 0 <= i < j < |es| ==> AtLeast(Key(es[i], rank), Key(es[j], rank))
  }

  /** `ranked` is one possible outcome of sorting `es` by `by`, descending, missing last. */
  predicate IsRanking(es: seq<Entry>, ranked: seq<Entry>, rank: RankBy) {
    multiset(ranked) == multiset(es) && Sorted(ranked, rank)
  }

  /** Places `e` in front of the first entry it ranks at least as high as. */
  function Insert(e: Entry, s: seq<Entry>, rank: RankBy): (r: seq<Entry>)
    ensures multiset(r) == multiset{e} + multiset(s)
    decreases |s|
  {
    if |s| == 0 then [e]
    else if AtLeast(Key(e, rank), Key(s[0], rank)) then
      assert s == [s[0]] + s[1..];
      [e] + s
    else
      assert s == [s[0]] + s[1..];
      [s[0]] + Insert(e, s[1..], rank)
  }

  lemma {:induction false} InsertSorted(e: Entry, s: seq<Entry>, rank: RankBy)
    requires Sorted(s, rank)
    ensures Sorted(Insert(e, s, rank), rank)
    decreases |s|
  {
    if |s| > 0 && !AtLeast(Key(e, rank), Key(s[0], rank)) {
      InsertSorted(e, s[1..], rank);
      var rest := Insert(e, s[1..], rank);
      forall j | 0 <= j < |rest| ensures AtLeast(Key(s[0], rank), Key(rest[j], rank)) {
        InsertedBelowHead(e, s, rank, j);
      }
      ConsSorted(s[0], rest, rank);
    }
  }

  /** When `e` goes behind the head of a sorted list, every entry of the rest ranks below the head. */
  lemma InsertedBelowHead(e: Entry, s: seq<Entry>, rank: RankBy, j: int)
    requires Sorted(s, rank) && |s| > 0 && !AtLeast(Key(e, rank), Key(s[0], rank))
    requires 0 <= j < |Insert(e, s[1..], rank)|
    ensures AtLeast(Key(s[0], rank), Key(Insert(e, s[1..], rank)[j], rank))
  {
    var rest := Insert(e, s[1..], rank);
    assert rest[j] in multiset(rest);
    if rest[j] != e {
      assert rest[j] in multiset(s[1..]);
      var k :| 0 <= k < |s[1..]| && s[1..][k] == rest[j];
      assert s[k + 1] == rest[j];
    }
  }

  /** An entry ranking at least as high as every entry of a sorted list can go in front of it. */
  lemma ConsSorted(x: Entry, rest: seq<Entry>, rank: RankBy)
    requires Sorted(rest, rank)
    requires forall j :: 0 <= j < |rest| ==> AtLeast(Key(x, rank), Key(rest[j], rank))
    ensures Sorted([x] + rest, rank)
  {
    var r := [x] + rest;
    forall i, j | 0 <= i < j < |r| ensures AtLeast(Key(r[i], rank), Key(r[j], rank)) {
      if i == 0 {
        assert r[j] == rest[j - 1];
      } else {
        assert r[i] == rest[i - 1] && r[j] == rest[j - 1];
      }
    }
  }

  /** A deterministic sort: one of the orders pandas may produce. */
  function Sort(es: seq<Entry>, rank: RankBy): (r: seq<Entry>)
    ensures IsRanking(es, r, rank)
    ensures |r| == |es|
    decreases |es|
  {
    if |es| == 0 then []
    else
      assert es == [es[0]] + es[1..];
      var r := Insert(es[0], Sort(es[1..], rank), rank);
      InsertSorted(es[0], Sort(es[1..], rank), rank);
      assert |r| == |multiset(r)| == |multiset(es)| == |es|;
      r
  }

  /** Any ranking has the same length as the column it ranks. */
  lemma RankingLength(es: seq<Entry>, ranked: seq<Entry>, rank: RankBy)
    requires IsRanking(es, ranked, rank)
    ensures |ranked| == |es|
  {
    assert |multiset(ranked)| == |multiset(es)|;
  }
}
