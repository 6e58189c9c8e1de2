/** Occurrence counts of a sequence: the tables of every counting sort in the block pipeline. */
module Counting {
  import opened Permutations

  function Count(l: seq<int>, c: int): (r: nat)
    ensures r <= |l|
  {
    if l == [] then 0 else Count(l[..|l|-1], c) + (if l[|l|-1] == c then 1 else 0)
  }

  function Below(l: seq<int>, c: int): (r: nat)
    ensures r <= |l|
  {
    if l == [] then 0 else Below(l[..|l|-1], c) + (if l[|l|-1] < c then 1 else 0)
  }

  lemma {:induction false} BelowGap(l: seq<int>, c: int, d: int)
    requires c < d
    ensures Below(l, c) + Count(l, c) <= Below(l, d)
    ensures Below(l, c) + Count(l, c) <= |l|
  {
    if l != [] {
      BelowGap(l[..|l|-1], c, d);
    }
  }

  lemma {:induction false} CountPrefix(l: seq<int>, c: int, i: nat, k: nat)
    requires i <= k <= |l|
    ensures Count(l[..i], c) <= Count(l[..k], c)
    ensures i < k && l[i] == c ==> Count(l[..i], c) < Count(l[..k], c)
  {
    if i < k {
      assert l[..k][..k-1] == l[..k-1];
      CountPrefix(l, c, i, k - 1);
    }
  }

  lemma CountWhole(l: seq<int>, c: int, i: nat)
    requires i < |l| && l[i] == c
    ensures Count(l[..i], c) < Count(l, c)
  {
    CountPrefix(l, c, i, |l|);
    assert l[..|l|] == l;
  }

  lemma {:induction false} BelowStep(l: seq<int>, c: int)
    ensures Below(l, c + 1) == Below(l, c) + Count(l, c)
  {
    if l != [] {
      BelowStep(l[..|l|-1], c);
    }
  }

  lemma BelowMonotone(l: seq<int>, c: int, d: int)
    requires c <= d
    ensures Below(l, c) <= Below(l, d)
  {
    if c < d {
      BelowGap(l, c, d);
    }
  }

  lemma {:induction false} BelowAll(l: seq<int>, c: int)
    requires forall i :: 0 <= i < |l| ==> l[i] < c
    ensures Below(l, c) == |l|
  {
    if l != [] {
      BelowAll(l[..|l|-1], c);
    }
  }

  lemma {:induction false} BelowNone(l: seq<int>, c: int)
    requires forall i :: 0 <= i < |l| ==> l[i] >= c
    ensures Below(l, c) == 0
  {
    if l != [] {
      BelowNone(l[..|l|-1], c);
    }
  }

  lemma CountAppend(l: seq<int>, i: nat, c: int)
    requires i < |l|
    ensures Count(l[..i+1], c) == Count(l[..i], c) + (if l[i] == c then 1 else 0)
  {
    assert l[..i+1][..i] == l[..i];
  }

  ghost function Sites(l: seq<int>, c: int): set<int> {
    set i | 0 <= i < |l| && l[i] == c
  }

  lemma {:induction false} CountSites(l: seq<int>, c: int)
    ensures Count(l, c) == |Sites(l, c)|
  {
    if l != [] {
      var k := |l| - 1;
      CountSites(l[..k], c);
      assert Sites(l, c) == Sites(l[..k], c) + (if l[k] == c then {k} else {});
    }
  }

  /** The entries of l read in the order f. */
  function Permuted(l: seq<int>, f: seq<int>): (g: seq<int>)
    requires |f| == |l| && forall i :: 0 <= i < |f| ==> 0 <= f[i] < |l|
    ensures |g| == |l|
  {
    seq(|l|, i requires 0 <= i < |l| => l[f[i]])
  }

  /** Reading in another order keeps every count. */
  lemma CountPermuted(l: seq<int>, f: seq<int>, c: int)
    requires IsPerm(f, |l|)
    ensures Count(Permuted(l, f), c) == Count(l, c)
  {
    var g := Permuted(l, f);
    CountSites(l, c);
    CountSites(g, c);
    InjectiveImageSize(f, Sites(g, c));
    var image := ImageOf(f, Sites(g, c));
    forall v | v in Sites(l, c)
      ensures v in image
    {
      var i := PermIsOnto(f, |l|, v);
      assert i in Sites(g, c);
    }
    assert image == Sites(l, c);
  }

  // ---------- stable counting sort ----------

  /** Where the i-th entry lands when the sequence is sorted stably. */
  function Place(l: seq<int>, i: nat): nat
    requires i < |l|
  {
    Below(l, l[i]) + Count(l[..i], l[i])
  }

  lemma PlaceBound(l: seq<int>, i: nat)
    requires i < |l|
    ensures Place(l, i) < |l|
  {
    CountPrefix(l, l[i], i, |l|);
    assert l[..|l|] == l;
    BelowGap(l, l[i], l[i] + 1);
  }

  /** Places follow the order by value first, then by position. */
  lemma PlaceOrder(l: seq<int>, i: nat, k: nat)
    requires i < |l| && k < |l|
    requires l[i] < l[k] || (l[i] == l[k] && i < k)
    ensures Place(l, i) < Place(l, k)
  {
    assert l[..|l|] == l;
    if l[i] < l[k] {
      CountPrefix(l, l[i], i, |l|);
      BelowGap(l, l[i], l[k]);
    } else {
      CountPrefix(l, l[i], i, k);
    }
  }

  ghost function Places(l: seq<int>): (t: seq<int>)
    ensures |t| == |l|
  {
    seq(|l|, i requires 0 <= i < |l| => Place(l, i))
  }

  lemma PlacesPerm(l: seq<int>)
    ensures IsPerm(Places(l), |l|)
  {
    var t := Places(l);
    forall i | 0 <= i < |l|
      ensures 0 <= t[i] < |l|
    {
      PlaceBound(l, i);
    }
    forall i, j | 0 <= i < j < |l|
      ensures t[i] != t[j]
    {
      if l[i] <= l[j] {
        PlaceOrder(l, i, j);
      } else {
        PlaceOrder(l, j, i);
      }
    }
  }

  /** p lists the positions in sorted order: it undoes Place. */
  ghost predicate Unplaces(l: seq<int>, p: seq<int>) {
    && |p| == |l|
    && forall i :: 0 <= i < |l| ==> Place(l, i) < |p| && p[Place(l, i)] == i
  }

  lemma UnplacesInverse(l: seq<int>, p: seq<int>, j: nat)
    requires Unplaces(l, p) && j < |l|
    ensures 0 <= p[j] < |l| && Place(l, p[j]) == j
  {
    PlacesPerm(l);
    assert forall i :: 0 <= i < |l| ==> Places(l)[i] == Place(l, i);
    InversePerm(Places(l), p, |l|);
  }

  ghost function ListedAt(l: seq<int>, j: nat): (i: nat)
    requires j < |l|
    ensures i < |l| && Place(l, i) == j
  {
    PlacesPerm(l);
    PermReaches(Places(l), |l|, j);
    var i :| 0 <= i < |l| && Places(l)[i] == j;
    i
  }

  /** The sorted listing of the positions. */
  ghost function Listing(l: seq<int>): (p: seq<int>)
    ensures Unplaces(l, p)
    ensures IsPerm(p, |l|)
  {
    PlacesPerm(l);
    assert forall i :: 0 <= i < |l| ==> Places(l)[i] == Place(l, i);
    seq(|l|, j requires 0 <= j < |l| => ListedAt(l, j))
  }

  lemma UnplacesUnique(l: seq<int>, p: seq<int>, q: seq<int>)
    requires Unplaces(l, p) && Unplaces(l, q)
    ensures p == q
  {
    forall j | 0 <= j < |l|
      ensures p[j] == q[j]
    {
      UnplacesInverse(l, p, j);
    }
  }
}
