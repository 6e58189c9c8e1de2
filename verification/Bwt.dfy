/** The Burrows-Wheeler transform over any sorted rotation order, and its inverse by stable counting sort. */
module Bwt {
  import opened Counting
  import opened Permutations
  import opened Rotations

  /** An order the block sorter may return: ties between equal rotations fall either way. */
  ghost predicate SortedRotations(b: seq<int>, f: seq<int>) {
    && IsPerm(f, |b|)
    && forall i, j :: 0 <= i < j < |b| ==> !Lt(b, f[j], f[i], |b|)
  }

  function LastColumn(b: seq<int>, f: seq<int>): (l: seq<int>)
    requires |f| == |b| && forall i :: 0 <= i < |f| ==> 0 <= f[i] < |b|
    ensures |l| == |b|
  {
    seq(|b|, i requires 0 <= i < |b| => b[Prev(|b|, f[i])])
  }

  // ---------- two sorted orders of the same rotations ----------

  lemma SmallerFirst(b: seq<int>, f: seq<int>, g: seq<int>, j: nat)
    requires SortedRotations(b, f) && SortedRotations(b, g) && j < |b|
    ensures !Lt(b, f[j], g[j], |b|)
  {
    var n := |b|;
    if Lt(b, f[j], g[j], n) {
      var early := f[..j+1];
      forall v | v in Image(early)
        ensures v in Image(g[..j])
      {
        var i :| 0 <= i <= j && f[i] == v;
        Trichotomy(b, f[i], f[j], n);
        EqRefl(b, v, n);
        Transitive(b, f[i], f[j], g[j], n);
        assert Lt(b, v, g[j], n);
        var k := PermIsOnto(g, n, v);
        Trichotomy(b, v, g[j], n);
        if k == j {
          assert false;
        }
        assert k < j;
        assert g[..j][k] == v;
      }
      ImageSize(early);
      ImageSize(g[..j]);
      SubsetSize(Image(early), Image(g[..j]));
    }
  }

  /** Any two sorted orders agree row by row, up to equal rotations. */
  lemma SortedOrdersAgree(b: seq<int>, f: seq<int>, g: seq<int>, j: nat)
    requires SortedRotations(b, f) && SortedRotations(b, g) && j < |b|
    ensures Eq(b, f[j], g[j], |b|)
  {
    SmallerFirst(b, f, g, j);
    SmallerFirst(b, g, f, j);
    Trichotomy(b, f[j], g[j], |b|);
  }

  /** The rotations one step before the listed rows, in listing order. */
  ghost function Stepped(b: seq<int>, f: seq<int>, p: seq<int>): (g: seq<int>)
    requires |f| == |p| == |b| && forall i :: 0 <= i < |f| ==> 0 <= f[i] < |b|
    requires forall i :: 0 <= i < |p| ==> 0 <= p[i] < |b|
    ensures |g| == |b|
  {
    seq(|b|, j requires 0 <= j < |b| => Prev(|b|, f[p[j]]))
  }

  lemma SteppedSorted(b: seq<int>, f: seq<int>, p: seq<int>)
    requires SortedRotations(b, f)
    requires IsPerm(p, |b|) && Unplaces(LastColumn(b, f), p)
    ensures SortedRotations(b, Stepped(b, f, p))
  {
    var n, g := |b|, Stepped(b, f, p);
    forall j, k | 0 <= j < k < n
      ensures g[j] != g[k]
      ensures !Lt(b, g[k], g[j], n)
    {
      assert f[p[j]] != f[p[k]] by {
        assert p[j] != p[k];
      }
      ListedInOrder(LastColumn(b, f), p, j, k);
      assert LastColumn(b, f)[p[j]] == b[g[j]] && LastColumn(b, f)[p[k]] == b[g[k]];
      SteppedPair(b, f, p[j], p[k]);
    }
  }

  /** The listing runs by value first, then by position. */
  lemma ListedInOrder(l: seq<int>, p: seq<int>, j: nat, k: nat)
    requires Unplaces(l, p) && j < k < |l|
    ensures 0 <= p[j] < |l| && 0 <= p[k] < |l|
    ensures l[p[j]] < l[p[k]] || (l[p[j]] == l[p[k]] && p[j] < p[k])
  {
    UnplacesInverse(l, p, j);
    UnplacesInverse(l, p, k);
    if l[p[k]] < l[p[j]] || (l[p[k]] == l[p[j]] && p[k] < p[j]) {
      PlaceOrder(l, p[k], p[j]);
    }
  }

  lemma SteppedPair(b: seq<int>, f: seq<int>, u: nat, v: nat)
    requires SortedRotations(b, f) && u < |b| && v < |b|
    requires b[Prev(|b|, f[u])] < b[Prev(|b|, f[v])] || (b[Prev(|b|, f[u])] == b[Prev(|b|, f[v])] && u < v)
    ensures !Lt(b, Prev(|b|, f[v]), Prev(|b|, f[u]), |b|)
  {
    Split(b, f[v], f[u], |b| - 1, 1);
    assert u < v ==> !Lt(b, f[v], f[u], |b|);
  }

  /** One decoder step: the listed row holds the next rotation, and its last character starts this one. */
  lemma RowStep(b: seq<int>, f: seq<int>, p: seq<int>, j: nat)
    requires SortedRotations(b, f) && j < |b|
    requires Unplaces(LastColumn(b, f), p) && IsPerm(p, |b|)
    ensures Eq(b, Next(|b|, f[j]), f[p[j]], |b|)
    ensures LastColumn(b, f)[p[j]] == b[f[j]]
  {
    var g := Stepped(b, f, p);
    SteppedSorted(b, f, p);
    SortedOrdersAgree(b, f, g, j);
    EqStep(b, f[j], g[j]);
  }

  // ---------- the walk ----------

  /** The row reached from o after k steps along p. */
  ghost function Walk(p: seq<int>, o: nat, k: nat): (r: nat)
    requires o < |p| && IsPerm(p, |p|)
    ensures r < |p|
  {
    if k == 0 then o else p[Walk(p, o, k - 1)]
  }

  lemma {:induction false} WalkRotation(b: seq<int>, f: seq<int>, p: seq<int>, o: nat, k: nat)
    requires SortedRotations(b, f) && o < |b| && f[o] == 0
    requires Unplaces(LastColumn(b, f), p) && IsPerm(p, |b|)
    requires k < |b|
    ensures Eq(b, k, f[Walk(p, o, k)], |b|)
  {
    if k == 0 {
      EqRefl(b, 0, |b|);
    } else {
      WalkRotation(b, f, p, o, k - 1);
      var j := Walk(p, o, k - 1);
      EqStep(b, k - 1, f[j]);
      RowStep(b, f, p, j);
      Transitive(b, k, Next(|b|, f[j]), f[p[j]], |b|);
    }
  }

  /** What a decoder holding the column and the primary index emits. */
  ghost function Unbwt(l: seq<int>, o: nat): (b: seq<int>)
    requires o < |l|
    ensures |b| == |l|
  {
    var p := Listing(l);
    seq(|l|, k requires 0 <= k < |l| => l[Walk(p, o, k + 1)])
  }

  /** Burrows-Wheeler round trip for every block and every sorted order, periodic blocks included. */
  lemma BwtRoundTrip(b: seq<int>, f: seq<int>, o: nat)
    requires SortedRotations(b, f) && o < |b| && f[o] == 0
    ensures Unbwt(LastColumn(b, f), o) == b
  {
    var l := LastColumn(b, f);
    var p := Listing(l);
    forall k | 0 <= k < |b|
      ensures Unbwt(l, o)[k] == b[k]
    {
      WalkRotation(b, f, p, o, k);
      var j := Walk(p, o, k);
      RowStep(b, f, p, j);
      EqStep(b, k, f[j]);
    }
  }
}
