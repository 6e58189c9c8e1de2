/** Permutations of 0..n-1 as sequences, and the counting arguments the sort and its inverse share. */
module Permutations {

  ghost predicate IsPerm(p: seq<int>, n: nat) {
    && |p| == n
    && (forall i :: 0 <= i < n ==> 0 <= p[i] < n)
    && (forall i, j :: 0 <= i < j < n ==> p[i] != p[j])
  }

  ghost function Range(n: nat): (r: set<int>)
    ensures |r| == n
    ensures forall k :: k in r <==> 0 <= k < n
  {
    if n == 0 then {} else Range(n - 1) + {n - 1}
  }

  ghost function Image(p: seq<int>): set<int> {
    set i | 0 <= i < |p| :: p[i]
  }

  lemma {:induction false} ImageSize(p: seq<int>)
    requires forall i, j :: 0 <= i < j < |p| ==> p[i] != p[j]
    ensures |Image(p)| == |p|
  {
    if |p| == 0 {
    } else {
      var k := |p| - 1;
      ImageSize(p[..k]);
      assert Image(p) == Image(p[..k]) + {p[k]};
      assert p[k] !in Image(p[..k]);
    }
  }

  lemma SubsetSize(a: set<int>, b: set<int>)
    requires a <= b
    ensures |a| <= |b|
    ensures |a| == |b| ==> a == b
  {
    assert b == a + (b - a);
    assert |b| == |a| + |b - a|;
    if |a| == |b| {
      assert b - a == {};
    }
  }

  /** An injective sequence of n values below n reaches every value. */
  lemma PermReaches(p: seq<int>, n: nat, v: int)
    requires IsPerm(p, n)
    requires 0 <= v < n
    ensures v in p
  {
    ImageSize(p);
    assert Image(p) <= Range(n);
    SubsetSize(Image(p), Range(n));
    assert v in Image(p);
  }

  lemma PermIsOnto(p: seq<int>, n: nat, v: int) returns (i: int)
    requires IsPerm(p, n)
    requires 0 <= v < n
    ensures 0 <= i < n && p[i] == v
  {
    PermReaches(p, n, v);
    i :| 0 <= i < n && p[i] == v;
  }

  /** Rearranging a permutation keeps it one. */
  lemma PermOfMultiset(p: seq<int>, q: seq<int>, n: nat)
    requires IsPerm(p, n)
    requires multiset(p) == multiset(q)
    ensures IsPerm(q, n)
  {
    assert |q| == |multiset(q)| == n;
    forall i | 0 <= i < n
      ensures 0 <= q[i] < n
    {
      assert q[i] in multiset(q);
      assert q[i] in multiset(p);
      assert q[i] in p;
    }
    forall i, j | 0 <= i < j < n
      ensures q[i] != q[j]
    {
      var v := q[i];
      DistinctCount(p, v);
      assert q == q[..j] + q[j..];
      assert v in q[..j] by { assert q[..j][i] == v; }
      assert q[j] in q[j..] by { assert q[j..][0] == q[j]; }
    }
  }

  lemma DistinctCount(p: seq<int>, v: int)
    requires forall i, j :: 0 <= i < j < |p| ==> p[i] != p[j]
    ensures multiset(p)[v] <= 1
  {
    if k :| 0 <= k < |p| && p[k] == v {
      assert p == p[..k] + [v] + p[k+1..];
      assert v !in p[..k] && v !in p[k+1..];
    }
  }

  /** The inverse of a permutation is a permutation, and inverts it from both sides. */
  lemma InversePerm(t: seq<int>, p: seq<int>, n: nat)
    requires IsPerm(t, n) && |p| == n
    requires forall i :: 0 <= i < n ==> p[t[i]] == i
    ensures IsPerm(p, n)
    ensures forall j :: 0 <= j < n ==> t[p[j]] == j
  {
    forall j | 0 <= j < n
      ensures 0 <= p[j] < n && t[p[j]] == j
    {
      var i := PermIsOnto(t, n, j);
    }
  }

  ghost function ImageOf(f: seq<int>, a: set<int>): set<int>
    requires forall i :: i in a ==> 0 <= i < |f|
  {
    set i | i in a :: f[i]
  }

  lemma {:induction false} InjectiveImageSize(f: seq<int>, a: set<int>)
    requires forall i :: i in a ==> 0 <= i < |f|
    requires forall i, j :: 0 <= i < j < |f| ==> f[i] != f[j]
    ensures |ImageOf(f, a)| == |a|
  {
    if x :| x in a {
      InjectiveImageSize(f, a - {x});
      assert ImageOf(f, a) == ImageOf(f, a - {x}) + {f[x]};
    } else {
      assert a == {};
    }
  }
}
