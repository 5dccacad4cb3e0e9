/**
 * Fancy indexing on parallel arrays: `v[p]` with an index array `p`, and the
 * pairing of a box array with its index array.
 */
module Indexing {
  /** `np.arange(n)`. */
  function Range(n: nat): (r: seq<nat>)
    ensures |r| == n
    ensures forall j :: 0 <= j < n ==> r[j] == j
  {
    if n == 0 then [] else Range(n - 1) + [n - 1]
  }

  /** `p` holds every index below `n` exactly once. */
  predicate IsPermutation(p: seq<nat>, n: nat)
  {
    multiset(p) == multiset(Range(n))
  }

  predicate InBounds(p: seq<nat>, n: nat)
  {
    forall j :: 0 <= j < |p| ==> p[j] < n
  }

  /** `v[p]`: the elements of `v` in the order given by the index array `p`. */
  function Gather<T>(v: seq<T>, p: seq<nat>): (r: seq<T>)
    requires InBounds(p, |v|)
    ensures |r| == |p|
  {
    seq(|p|, j requires 0 <= j < |p| => v[p[j]])
  }

  /** The rows of two parallel arrays, side by side. */
  function Zip<A, B>(a: seq<A>, b: seq<B>): (r: seq<(A, B)>)
    requires |a| == |b|
    ensures |r| == |a|
  {
    seq(|a|, j requires 0 <= j < |a| => (a[j], b[j]))
  }

  lemma PermutationInBounds(p: seq<nat>, n: nat)
    requires IsPermutation(p, n)
    ensures InBounds(p, n) && |p| == n
  {
    assert |multiset(p)| == |multiset(Range(n))|;
    forall j | 0 <= j < |p| ensures p[j] < n {
      assert p[j] in multiset(p);
      assert p[j] in Range(n);
    }
  }

  lemma RemoveAt(q: seq<nat>, k: nat)
    requires k < |q|
    ensures multiset(q[..k] + q[k + 1..]) == multiset(q) - multiset{q[k]}
  {
    assert q == q[..k] + [q[k]] + q[k + 1..];
  }

  lemma GatherAppend<T>(v: seq<T>, a: seq<nat>, b: seq<nat>)
    requires InBounds(a, |v|) && InBounds(b, |v|)
    ensures InBounds(a + b, |v|)
    ensures Gather(v, a + b) == Gather(v, a) + Gather(v, b)
  {
  }

  lemma GatherCons<T>(v: seq<T>, p: seq<nat>)
    requires InBounds(p, |v|) && |p| > 0
    ensures InBounds(p[1..], |v|)
    ensures Gather(v, p) == [v[p[0]]] + Gather(v, p[1..])
  {
  }

  lemma MultisetCons(p: seq<nat>)
    requires |p| > 0
    ensures multiset(p[1..]) == multiset(p) - multiset{p[0]}
  {
    assert p == [p[0]] + p[1..];
  }

  /** Taking index `k` out of `q` takes one copy of `v[q[k]]` out of the gathered multiset. */
  lemma GatherRemove<T>(v: seq<T>, q: seq<nat>, k: nat)
    requires InBounds(q, |v|) && k < |q|
    ensures InBounds(q[..k] + q[k + 1..], |v|)
    ensures multiset(Gather(v, q)) == multiset{v[q[k]]} + multiset(Gather(v, q[..k] + q[k + 1..]))
  {
    var front, back := q[..k], q[k + 1..];
    assert q == front + [q[k]] + back;
    GatherAppend(v, front, back);
    GatherAppend(v, front, [q[k]]);
    GatherAppend(v, front + [q[k]], back);
    assert Gather(v, q) == Gather(v, front) + [v[q[k]]] + Gather(v, back);
  }

  /** Gathering with two index arrays holding the same indices gives the same multiset. */
  lemma {:induction false} GatherSameIndices<T>(v: seq<T>, p: seq<nat>, q: seq<nat>)
    requires multiset(p) == multiset(q) && InBounds(q, |v|)
    ensures InBounds(p, |v|)
    ensures multiset(Gather(v, p)) == multiset(Gather(v, q))
    decreases |p|
  {
    forall j | 0 <= j < |p| ensures p[j] < |v| {
      assert p[j] in multiset(q);
    }
    if |p| == 0 {
      assert |multiset(q)| == 0;
      return;
    }
    var x := p[0];
    assert x in multiset(q);
    var k :| 0 <= k < |q| && q[k] == x;
    RemoveAt(q, k);
    MultisetCons(p);
    GatherSameIndices(v, p[1..], q[..k] + q[k + 1..]);
    GatherCons(v, p);
    GatherRemove(v, q, k);
  }

  /** Reordering by a permutation keeps every element with its multiplicity. */
  lemma GatherPermutation<T>(v: seq<T>, p: seq<nat>)
    requires IsPermutation(p, |v|)
    ensures InBounds(p, |v|)
    ensures multiset(Gather(v, p)) == multiset(v)
  {
    GatherSameIndices(v, p, Range(|v|));
    assert Gather(v, Range(|v|)) == v;
  }

  lemma GatherZip<A, B>(a: seq<A>, b: seq<B>, p: seq<nat>)
    requires |a| == |b| && InBounds(p, |a|)
    ensures Zip(Gather(a, p), Gather(b, p)) == Gather(Zip(a, b), p)
  {
  }
}
