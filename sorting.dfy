/**
 * `argsort` on an integer key array. The library's default sort is not
 * stable, so the contract fixes only what every admissible answer shares:
 * the result is a permutation of the positions, ordered by key. Callers see
 * nothing else, so no property of the model depends on the order of ties.
 */
module Sorting {
  import opened Indexing

  /** The positions `p` of `keys` are listed by ascending key. */
  predicate SortedBy(keys: seq<int>, p: seq<nat>)
  {
    InBounds(p, |keys|) && forall i, j :: 0 <= i < j < |p| ==> keys[p[i]] <= keys[p[j]]
  }

  /** A permutation of the positions of `keys` that lists them by ascending key. */
  method ArgSort(keys: seq<int>) returns (p: seq<nat>)
    ensures |p| == |keys| && IsPermutation(p, |keys|)
    ensures InBounds(p, |keys|)
    ensures forall i, j :: 0 <= i < j < |p| ==> keys[p[i]] <= keys[p[j]]
  {
    p := [];
    var n: nat := 0;
    while n < |keys|
      invariant 0 <= n <= |keys| && |p| == n
      invariant IsPermutation(p, n) && SortedBy(keys, p)
    {
      var m := InsertionPoint(keys, p, n);
      InsertSorted(keys, p, m, n);
      InsertPermutation(p, m, n);
      p := p[..m] + [n] + p[m..];
      n := n + 1;
    }
  }

  /** Where position `x` goes in `p`: after every entry whose key is not larger than its own, before the rest. */
  method InsertionPoint(keys: seq<int>, p: seq<nat>, x: nat) returns (m: nat)
    requires SortedBy(keys, p) && x < |keys|
    ensures m <= |p|
    ensures m > 0 ==> keys[p[m - 1]] <= keys[x]
    ensures forall j :: m <= j < |p| ==> keys[p[j]] > keys[x]
  {
    m := |p|;
    while m > 0 && keys[p[m - 1]] > keys[x]
      invariant 0 <= m <= |p|
      invariant forall j :: m <= j < |p| ==> keys[p[j]] > keys[x]
    {
      m := m - 1;
    }
  }

  lemma InsertSorted(keys: seq<int>, p: seq<nat>, m: nat, x: nat)
    requires SortedBy(keys, p) && m <= |p| && x < |keys|
    requires m > 0 ==> keys[p[m - 1]] <= keys[x]
    requires forall j :: m <= j < |p| ==> keys[p[j]] > keys[x]
    ensures SortedBy(keys, p[..m] + [x] + p[m..])
  {
    var q := p[..m] + [x] + p[m..];
    forall i, j | 0 <= i < j < |q| ensures keys[q[i]] <= keys[q[j]] {
      if j < m {
        assert q[i] == p[i] && q[j] == p[j];
      } else if j == m {
        assert q[i] == p[i] && keys[p[i]] <= keys[p[m - 1]];
      } else if i == m {
        assert q[j] == p[j - 1];
      } else if i < m {
        assert q[i] == p[i] && q[j] == p[j - 1] && keys[p[i]] <= keys[p[j - 1]];
      } else {
        assert q[i] == p[i - 1] && q[j] == p[j - 1];
      }
    }
  }

  lemma InsertPermutation(p: seq<nat>, m: nat, n: nat)
    requires IsPermutation(p, n) && m <= |p|
    ensures IsPermutation(p[..m] + [n] + p[m..], n + 1)
  {
    assert p == p[..m] + p[m..];
    assert multiset(p[..m] + [n] + p[m..]) == multiset(p) + multiset{n};
    assert Range(n + 1) == Range(n) + [n];
  }
}
