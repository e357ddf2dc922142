/** Order-preserving selection from a sequence: the boolean-mask indexing of a pandas frame. */
module Seqs {

  /** The elements of `xs` that satisfy `p`, in their original order. */
  function Keep<T>(xs: seq<T>, p: T -> bool): (r: seq<T>)
    ensures |r| <= |xs|
    ensures forall i :: 0 <= i < |r| ==> p(r[i])
  {
    if |xs| == 0 then []
    else if p(xs[0]) then [xs[0]] + Keep(xs[1..], p)
    else Keep(xs[1..], p)
  }

  /** Keeping never invents or duplicates an element. */
  lemma {:induction false} KeepSubMultiset<T>(xs: seq<T>, p: T -> bool)
    ensures multiset(Keep(xs, p)) <= multiset(xs)
    decreases |xs|
  {
    if |xs| > 0 {
      KeepSubMultiset(xs[1..], p);
      assert xs == [xs[0]] + xs[1..];
    }
  }

  /** `f` applied to every element, in order. */
  function Map<T, U>(xs: seq<T>, f: T -> U): (r: seq<U>)
    ensures |r| == |xs|
    ensures forall i :: 0 <= i < |xs| ==> r[i] == f(xs[i])
  {
    if |xs| == 0 then [] else [f(xs[0])] + Map(xs[1..], f)
  }

  lemma MapAppend<T, U>(a: seq<T>, b: seq<T>, f: T -> U)
    ensures Map(a + b, f) == Map(a, f) + Map(b, f)
  {
  }

  lemma MapPrefix<T, U>(xs: seq<T>, f: T -> U, k: int)
    requires 0 <= k <= |xs|
    ensures Map(xs[..k], f) == Map(xs, f)[..k]
  {
  }

  /** No element occurs twice. */
  predicate Distinct<T(==)>(xs: seq<T>) {
    forall i, j :: 0 <= i < j < |xs| ==> xs[i] != xs[j]
  }

  /** A value missing from a list without repetitions can go in front of it. */
  lemma ConsDistinct<T>(x: T, xs: seq<T>)
    requires Distinct(xs) && forall k :: 0 <= k < |xs| ==> xs[k] != x
    ensures Distinct([x] + xs)
  {
    var r := [x] + xs;
    forall i, j | 0 <= i < j < |r| ensures r[i] != r[j] {
      assert r[j] == xs[j - 1];
      if i > 0 {
        assert r[i] == xs[i - 1];
      }
    }
  }

  /** `sub` can be obtained from `xs` by deleting elements, without reordering the rest. */
  predicate IsSubsequence<T(==)>(sub: seq<T>, xs: seq<T>)
    decreases |xs|
  {
    if |sub| == 0 then true
    else if |xs| == 0 then false
    else if sub[0] == xs[0] then IsSubsequence(sub[1..], xs[1..])
    else IsSubsequence(sub, xs[1..])
  }

  lemma {:induction false} KeepIsSubsequence<T>(xs: seq<T>, p: T -> bool)
    ensures IsSubsequence(Keep(xs, p), xs)
    decreases |xs|
  {
    if |xs| > 0 {
      KeepIsSubsequence(xs[1..], p);
      var k := Keep(xs[1..], p);
      if p(xs[0]) {
        assert Keep(xs, p) == [xs[0]] + k;
        assert ([xs[0]] + k)[1..] == k;
      } else {
        SubsequenceOfTail(k, xs);
      }
    }
  }

  lemma {:induction false} SubsequenceOfTail<T>(sub: seq<T>, xs: seq<T>)
    requires |xs| > 0
    requires IsSubsequence(sub, xs[1..])
    ensures IsSubsequence(sub, xs)
    decreases |xs|
  {
    if |sub| > 0 && sub[0] == xs[0] {
      SubsequenceDropHead(sub, xs[1..]);
      SubsequenceOfTail(sub[1..], xs[1..]);
    }
  }

  lemma {:induction false} SubsequenceDropHead<T>(sub: seq<T>, xs: seq<T>)
    requires |sub| > 0 && |xs| > 0
    requires IsSubsequence(sub, xs)
    ensures IsSubsequence(sub[1..], xs[1..])
    decreases |xs|
  {
    if sub[0] != xs[0] {
      assert IsSubsequence(sub, xs[1..]);
      assert |xs[1..]| > 0;
      SubsequenceDropHead(sub, xs[1..]);
      SubsequenceOfTail(sub[1..], xs[1..]);
    }
  }

  /** Every element that satisfies `p` is kept. */
  lemma {:induction false} KeepComplete<T>(xs: seq<T>, p: T -> bool, i: int)
    requires 0 <= i < |xs| && p(xs[i])
    ensures xs[i] in Keep(xs, p)
    decreases |xs|
  {
    if i > 0 {
      assert xs[i] == xs[1..][i - 1];
      KeepComplete(xs[1..], p, i - 1);
    }
  }

  /** Every kept element comes from `xs`. */
  lemma KeepFrom<T>(xs: seq<T>, p: T -> bool, x: T)
    requires x in Keep(xs, p)
    ensures x in xs
  {
    assert x in multiset(Keep(xs, p));
  }

  /** When nothing satisfies `p`, nothing is kept. */
  lemma KeepNone<T>(xs: seq<T>, p: T -> bool)
    requires forall i :: 0 <= i < |xs| ==> !p(xs[i])
    ensures Keep(xs, p) == []
  {
    if |xs| > 0 {
      assert !p(xs[0]);
    }
  }

  /** When everything satisfies `p`, everything is kept. */
  lemma {:induction false} KeepAll<T>(xs: seq<T>, p: T -> bool)
    requires forall i :: 0 <= i < |xs| ==> p(xs[i])
    ensures Keep(xs, p) == xs
    decreases |xs|
  {
    if |xs| > 0 {
      assert p(xs[0]);
      KeepAll(xs[1..], p);
    }
  }

  /**
   If `p` holding at a position implies it holds at every earlier position, the kept elements are a
   prefix of `xs`.
   */
  lemma {:induction false} KeepPrefix<T>(xs: seq<T>, p: T -> bool)
    requires forall i, j :: 0 <= i < j < |xs| && p(xs[j]) ==> p(xs[i])
    ensures Keep(xs, p) == xs[..|Keep(xs, p)|]
    ensures forall i :: 0 <= i < |xs| ==> (p(xs[i]) <==> i < |Keep(xs, p)|)
    decreases |xs|
  {
    if |xs| > 0 {
      if p(xs[0]) {
        KeepPrefix(xs[1..], p);
        var k := Keep(xs[1..], p);
        assert Keep(xs, p) == [xs[0]] + k;
        assert xs[..|k| + 1] == [xs[0]] + xs[1..][..|k|];
        forall i | 0 <= i < |xs| ensures p(xs[i]) <==> i < |k| + 1 {
          if i > 0 {
            assert xs[i] == xs[1..][i - 1];
          }
        }
      } else {
        assert forall i :: 0 <= i < |xs| ==> !p(xs[i]);
        KeepNone(xs, p);
      }
    }
  }

  /** Mapping keeps the subsequence relation. */
  lemma {:induction false} MapSubsequence<T, U>(sub: seq<T>, xs: seq<T>, f: T -> U)
    requires IsSubsequence(sub, xs)
    ensures IsSubsequence(Map(sub, f), Map(xs, f))
    decreases |xs|
  {
    if |sub| > 0 {
      var ms, mx := Map(sub, f), Map(xs, f);
      assert ms[1..] == Map(sub[1..], f);
      assert mx[1..] == Map(xs[1..], f);
      if sub[0] == xs[0] {
        MapSubsequence(sub[1..], xs[1..], f);
      } else {
        MapSubsequence(sub, xs[1..], f);
        if ms[0] == mx[0] {
          SubsequenceDropHead(ms, mx[1..]);
          SubsequenceOfTail(ms[1..], mx[1..]);
        }
      }
    }
  }

  /** How often `x` is kept: as often as it occurs in `xs` if it passes, never otherwise. */
  lemma {:induction false} KeepMultiplicity<T>(xs: seq<T>, p: T -> bool, x: T)
    ensures multiset(Keep(xs, p))[x] == if p(x) then multiset(xs)[x] else 0
    decreases |xs|
  {
    if |xs| > 0 {
      KeepMultiplicity(xs[1..], p, x);
      assert xs == [xs[0]] + xs[1..];
      if p(xs[0]) {
        assert Keep(xs, p) == [xs[0]] + Keep(xs[1..], p);
      }
    }
  }

  /** Filtering two permutations of each other yields permutations of each other. */
  lemma KeepPermutation<T>(a: seq<T>, b: seq<T>, p: T -> bool)
    requires multiset(a) == multiset(b)
    ensures multiset(Keep(a, p)) == multiset(Keep(b, p))
  {
    var ka, kb := multiset(Keep(a, p)), multiset(Keep(b, p));
    KeepSubMultiset(a, p);
    KeepSubMultiset(b, p);
    forall x ensures ka[x] == kb[x] {
      KeepMultiplicity(a, p, x);
      KeepMultiplicity(b, p, x);
    }
    assert ka == kb;
  }
}
