/** Integer sequence sums and the counting facts the solver's correctness rests on:
    a line of distinct values drawn from 1..n has at most n members, and n distinct
    values drawn from 1..n add up to n(n+1)/2. */
module Sums {

  /** Sum of a sequence, accumulated left to right as a running total. */
  function Sum(s: seq<int>): int
  {
    if |s| == 0 then 0 else Sum(s[..|s| - 1]) + s[|s| - 1]
  }

  /** No value occurs twice. */
  predicate Distinct(s: seq<int>)
  {
    forall i, j :: 0 <= i < j < |s| ==> s[i] != s[j]
  }

  /** Adding one more element to the end extends the running total by that element. */
  lemma SumSnoc(s: seq<int>, x: int)
    ensures Sum(s + [x]) == Sum(s) + x
  {
    assert (s + [x])[..|s|] == s;
  }

  /** Summing a prefix one element longer adds exactly that element. */
  lemma SumPrefixStep(s: seq<int>, k: int)
    requires 0 <= k < |s|
    ensures Sum(s[..k + 1]) == Sum(s[..k]) + s[k]
  {
    assert s[..k + 1][..k] == s[..k];
  }

  /** Sum distributes over concatenation. */
  lemma {:induction false} SumAppend(a: seq<int>, b: seq<int>)
    ensures Sum(a + b) == Sum(a) + Sum(b)
    decreases |b|
  {
    if |b| == 0 {
      assert a + b == a;
    } else {
      var b' := b[..|b| - 1];
      assert a + b == (a + b') + [b[|b| - 1]];
      SumSnoc(a + b', b[|b| - 1]);
      SumAppend(a, b');
      assert b == b' + [b[|b| - 1]];
      SumSnoc(b', b[|b| - 1]);
    }
  }

  /** s with the element at i taken out. */
  function Without(s: seq<int>, i: int): (t: seq<int>)
    requires 0 <= i < |s|
    ensures |t| == |s| - 1
  {
    s[..i] + s[i + 1..]
  }

  /** The sum of a + [x] + b splits into its three parts. */
  lemma SumMiddle(a: seq<int>, x: int, b: seq<int>)
    ensures Sum(a + [x] + b) == Sum(a) + x + Sum(b)
  {
    SumAppend(a + [x], b);
    SumSnoc(a, x);
  }

  lemma SplitAt(s: seq<int>, i: int)
    requires 0 <= i < |s|
    ensures s == s[..i] + [s[i]] + s[i + 1..]
  {
  }

  /** Taking one element out of a sequence takes exactly its value out of the sum. */
  lemma SumRemove(s: seq<int>, i: int)
    requires 0 <= i < |s|
    ensures Sum(s) == Sum(Without(s, i)) + s[i]
  {
    SplitAt(s, i);
    SumMiddle(s[..i], s[i], s[i + 1..]);
    SumAppend(s[..i], s[i + 1..]);
  }

  /** For non-negative elements, every prefix sum is at most the total. */
  lemma {:induction false} PrefixSumBounded(s: seq<int>, k: int)
    requires forall i :: 0 <= i < |s| ==> s[i] >= 0
    requires 0 <= k <= |s|
    ensures Sum(s[..k]) <= Sum(s)
    decreases |s| - k
  {
    if k < |s| {
      SumPrefixStep(s, k);
      PrefixSumBounded(s, k + 1);
      assert s[..|s|] == s;
    } else {
      assert s[..k] == s;
    }
  }

  /** Taking the element at i out of a distinct sequence bounded by lo..hi leaves a
      distinct sequence, bounded the same way, that no longer contains that element. */
  lemma RemoveAt(s: seq<int>, i: int, lo: int, hi: int)
    requires Distinct(s) && 0 <= i < |s|
    requires forall k :: 0 <= k < |s| ==> lo <= s[k] <= hi
    ensures Distinct(Without(s, i))
    ensures forall k :: 0 <= k < |s| - 1 ==> lo <= Without(s, i)[k] <= hi && Without(s, i)[k] != s[i]
  {
    var t := Without(s, i);
    forall k | 0 <= k < |t|
      ensures t[k] == if k < i then s[k] else s[k + 1]
    {
    }
  }

  /** Pigeonhole: distinct values drawn from the range lo..hi-1 number at most hi-lo. */
  lemma {:induction false} Pigeonhole(s: seq<int>, lo: int, hi: int)
    requires Distinct(s)
    requires forall i :: 0 <= i < |s| ==> lo <= s[i] < hi
    ensures |s| <= if hi <= lo then 0 else hi - lo
    decreases hi - lo
  {
    if |s| == 0 {
    } else if exists i :: 0 <= i < |s| && s[i] == hi - 1 {
      var i :| 0 <= i < |s| && s[i] == hi - 1;
      RemoveAt(s, i, lo, hi - 1);
      Pigeonhole(Without(s, i), lo, hi - 1);
    } else {
      assert lo <= s[0] < hi;
      Pigeonhole(s, lo, hi - 1);
    }
  }

  /** n distinct values drawn from 1..n are exactly 1..n, so they total n(n+1)/2
      (stated without division). */
  lemma {:induction false} SumOfPermutation(s: seq<int>, n: nat)
    requires |s| == n
    requires Distinct(s)
    requires forall i :: 0 <= i < |s| ==> 1 <= s[i] <= n
    ensures 2 * Sum(s) == n * (n + 1)
    decreases n
  {
    if n > 0 {
      if !(exists i :: 0 <= i < |s| && s[i] == n) {
        Pigeonhole(s, 1, n);
        assert false;
      }
      var i :| 0 <= i < |s| && s[i] == n;
      RemoveAt(s, i, 1, n);
      SumOfPermutation(Without(s, i), n - 1);
      SumRemove(s, i);
      assert n * (n + 1) == (n - 1) * n + 2 * n;
    }
  }
}
