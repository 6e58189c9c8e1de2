/** The bucket sorter of the fallback block sort: insertion passes below a threshold, three-way
    quicksort with an explicit stack above it. */
module BucketSort {

  /** g is f with the entries of positions lo..hi rearranged. */
  ghost predicate Rearranged(f: seq<int>, g: seq<int>, lo: int, hi: int) {
    && |f| == |g|
    && multiset(f) == multiset(g)
    && forall p :: 0 <= p < |f| && (p < lo || hi < p) ==> g[p] == f[p]
  }

  /** Every entry of f indexes e. */
  ghost predicate Indexes(f: seq<int>, e: seq<int>) {
    forall p :: 0 <= p < |f| ==> 0 <= f[p] < |e|
  }

  /** Class numbers rise along positions lo..hi. */
  ghost predicate SortedBy(f: seq<int>, e: seq<int>, lo: int, hi: int)
    requires Indexes(f, e) && 0 <= lo && hi < |f|
  {
    forall p, q :: lo <= p <= q <= hi ==> e[f[p]] <= e[f[q]]
  }

  lemma Sections(f: seq<int>, lo: int, hi: int)
    requires 0 <= lo <= hi < |f|
    ensures multiset(f) == multiset(f[..lo]) + multiset(f[lo..hi+1]) + multiset(f[hi+1..])
  {
    assert f == f[..lo] + f[lo..];
    assert f[lo..] == f[lo..hi+1] + f[hi+1..];
  }

  /** What stands in the section afterwards stood in it before. */
  lemma SectionValue(f: seq<int>, g: seq<int>, lo: int, hi: int, p: int) returns (q: int)
    requires Rearranged(f, g, lo, hi) && 0 <= lo <= p <= hi < |f|
    ensures lo <= q <= hi && f[q] == g[p]
  {
    var v := g[p];
    Sections(f, lo, hi);
    Sections(g, lo, hi);
    assert f[..lo] == g[..lo] && f[hi+1..] == g[hi+1..];
    assert g[lo..hi+1][p - lo] == v;
    assert v in multiset(g[lo..hi+1]);
    assert multiset(f[..lo])[v] + multiset(f[lo..hi+1])[v] + multiset(f[hi+1..])[v]
        == multiset(g[..lo])[v] + multiset(g[lo..hi+1])[v] + multiset(g[hi+1..])[v] by {
      assert multiset(f)[v] == multiset(g)[v];
    }
    assert v in f[lo..hi+1];
    var k :| 0 <= k < hi + 1 - lo && f[lo..hi+1][k] == v;
    q := lo + k;
  }

  lemma RearrangedRefl(f: seq<int>, lo: int, hi: int)
    ensures Rearranged(f, f, lo, hi)
  {
  }

  ghost function Exch(f: seq<int>, i: int, j: int): (g: seq<int>)
    requires 0 <= i < |f| && 0 <= j < |f|
    ensures |g| == |f|
  {
    f[i := f[j]][j := f[i]]
  }

  lemma ExchRearranges(f: seq<int>, g: seq<int>, lo: int, hi: int, i: int, j: int)
    requires Rearranged(f, g, lo, hi) && 0 <= lo <= i <= hi < |g| && lo <= j <= hi
    ensures |f| == |g| && Rearranged(f, Exch(g, i, j), lo, hi)
  {
  }

  method Swap(fmap: array<int>, i: int, j: int)
    requires 0 <= i < fmap.Length && 0 <= j < fmap.Length
    modifies fmap
    ensures fmap[..] == Exch(old(fmap[..]), i, j)
  {
    fmap[i], fmap[j] := fmap[j], fmap[i];
  }

  /** Chain order from position i on at the given stride, except that position i itself counts only
      once `moved` says something has been shifted into it. */
  ghost predicate ChainFrom(f: seq<int>, e: seq<int>, i: int, hi: int, stride: int, moved: bool)
    requires Indexes(f, e) && 0 <= i && hi < |f| && 1 <= stride
  {
    forall p :: i <= p && p + stride <= hi && (i < p || moved) ==> e[f[p]] <= e[f[p + stride]]
  }

  /** Shifting the entry at j into the hole at h moves the hole to j. */
  lemma HoleMoves(f0: seq<int>, f: seq<int>, lo: int, hi: int, h: int, j: int, tmp: int)
    requires 0 <= lo <= h <= hi < |f| && lo <= j <= hi && h != j
    requires Rearranged(f0, f[h := tmp], lo, hi)
    ensures Rearranged(f0, f[h := f[j]][j := tmp], lo, hi)
  {
    var g: seq<int> := f[h := tmp];
    ExchRearranges(f0, g, lo, hi, h, j);
    assert Exch(g, h, j) == f[h := f[j]][j := tmp];
  }

  lemma ShiftChain(f: seq<int>, e: seq<int>, i: int, hi: int, stride: int, j: int)
    requires Indexes(f, e) && 0 <= i && i + stride <= j <= hi < |f| && 1 <= stride
    requires ChainFrom(f, e, i, hi, stride, i + stride < j)
    ensures Indexes(f[j - stride := f[j]], e)
    ensures ChainFrom(f[j - stride := f[j]], e, i, hi, stride, true)
  {
    var g := f[j - stride := f[j]];
    forall p | i <= p && p + stride <= hi
      ensures e[g[p]] <= e[g[p + stride]]
    {
      if p + stride == j - stride {
        assert e[f[j - stride]] <= e[f[j - stride + stride]];
      } else if p == j - stride {
      } else {
        assert e[f[p]] <= e[f[p + stride]];
      }
    }
  }

  lemma DropChain(f: seq<int>, e: seq<int>, i: int, hi: int, stride: int, j: int, tmp: int)
    requires Indexes(f, e) && 0 <= i && i + stride <= j <= hi + stride && hi < |f| && 1 <= stride
    requires i + stride <= hi
    requires ChainFrom(f, e, i, hi, stride, i + stride < j)
    requires 0 <= tmp < |e| && (j <= hi ==> e[tmp] <= e[f[j]])
    requires i + stride < j ==> e[f[j - stride]] < e[tmp]
    ensures Indexes(f[j - stride := tmp], e)
    ensures ChainFrom(f[j - stride := tmp], e, i, hi, stride, true)
  {
    var g := f[j - stride := tmp];
    forall p | i <= p && p + stride <= hi
      ensures e[g[p]] <= e[g[p + stride]]
    {
      if p != j - stride && p + stride != j - stride {
        assert e[f[p]] <= e[f[p + stride]];
      }
    }
  }

  /** Moves the entry at i up its chain to where it belongs. */
  method Insert(fmap: array<int>, eclass: array<int>, ghost lo: int, hi: int, stride: int, i: int)
    requires fmap != eclass && Indexes(fmap[..], eclass[..])
    requires 0 <= lo <= i && i + stride <= hi < fmap.Length && 1 <= stride
    requires ChainFrom(fmap[..], eclass[..], i, hi, stride, false)
    modifies fmap
    ensures Rearranged(old(fmap[..]), fmap[..], lo, hi)
    ensures Indexes(fmap[..], eclass[..])
    ensures ChainFrom(fmap[..], eclass[..], i, hi, stride, true)
  {
    hide Rearranged, ChainFrom, Exch;
    RearrangedRefl(fmap[..], lo, hi);
    var tmp := fmap[i];
    var ecTmp := eclass[tmp];
    var j := i + stride;
    assert fmap[..][i := tmp] == fmap[..];
    while j <= hi && ecTmp > eclass[fmap[j]]
      invariant i + stride <= j <= hi + stride
      invariant Indexes(fmap[..], eclass[..])
      invariant Rearranged(old(fmap[..]), fmap[..][j - stride := tmp], lo, hi)
      invariant ChainFrom(fmap[..], eclass[..], i, hi, stride, i + stride < j)
      invariant i + stride < j ==> eclass[fmap[j - stride]] < ecTmp
    {
      ghost var f: seq<int> := fmap[..];
      ShiftChain(f, eclass[..], i, hi, stride, j);
      HoleMoves(old(fmap[..]), f, lo, hi, j - stride, j, tmp);
      fmap[j - stride] := fmap[j];
      assert fmap[..] == f[j - stride := f[j]];
      j := j + stride;
    }
    DropChain(fmap[..], eclass[..], i, hi, stride, j, tmp);
    ghost var f: seq<int> := fmap[..];
    fmap[j - stride] := tmp;
    assert fmap[..] == f[j - stride := tmp];
  }

  /** One insertion pass at the given stride, from the top of the range down. */
  method InsertionPass(fmap: array<int>, eclass: array<int>, lo: int, hi: int, stride: int)
    requires fmap != eclass && Indexes(fmap[..], eclass[..])
    requires 0 <= lo <= hi + 1 <= fmap.Length && 1 <= stride
    modifies fmap
    ensures Rearranged(old(fmap[..]), fmap[..], lo, hi)
    ensures Indexes(fmap[..], eclass[..])
    ensures ChainFrom(fmap[..], eclass[..], lo, hi, stride, true)
  {
    var i := hi - stride;
    while i >= lo
      invariant i <= hi - stride && (i == hi - stride || lo <= i + 1)
      invariant Rearranged(old(fmap[..]), fmap[..], lo, hi)
      invariant Indexes(fmap[..], eclass[..])
      invariant lo <= i + 1 ==> ChainFrom(fmap[..], eclass[..], i + 1, hi, stride, true)
    {
      Insert(fmap, eclass, lo, hi, stride, i);
      i := i - 1;
    }
  }

  lemma {:induction false} AdjacentSorted(f: seq<int>, e: seq<int>, lo: int, hi: int, p: int, q: int)
    requires Indexes(f, e) && 0 <= lo <= p <= q <= hi < |f|
    requires forall k :: lo <= k && k + 1 <= hi ==> e[f[k]] <= e[f[k + 1]]
    ensures e[f[p]] <= e[f[q]]
    decreases q - p
  {
    if p < q {
      AdjacentSorted(f, e, lo, hi, p, q - 1);
      assert e[f[q - 1]] <= e[f[q - 1 + 1]];
    }
  }

  method FallbackSimpleSort(fmap: array<int>, eclass: array<int>, lo: int, hi: int)
    requires fmap != eclass && Indexes(fmap[..], eclass[..])
    requires 0 <= lo <= hi + 1 <= fmap.Length
    modifies fmap
    ensures Rearranged(old(fmap[..]), fmap[..], lo, hi)
    ensures Indexes(fmap[..], eclass[..])
    ensures SortedBy(fmap[..], eclass[..], lo, hi)
  {
    if lo == hi {
      return;
    }
    if hi - lo > 3 {
      InsertionPass(fmap, eclass, lo, hi, 4);
    }
    InsertionPass(fmap, eclass, lo, hi, 1);
    forall p, q | lo <= p <= q <= hi
      ensures eclass[fmap[p]] <= eclass[fmap[q]]
    {
      AdjacentSorted(fmap[..], eclass[..], lo, hi, p, q);
    }
  }

  // ---------- one three-way split ----------

  /** The scan state of a split: equal, smaller, unscanned, greater, equal. */
  ghost predicate Layout(f: seq<int>, e: seq<int>, lo: int, hi: int, med: int,
                         ltLo: int, unLo: int, unHi: int, gtHi: int)
    requires Indexes(f, e)
  {
    && 0 <= lo <= ltLo <= unLo <= unHi + 1 <= gtHi + 1 <= hi + 1 <= |f|
    && (forall p :: lo <= p < ltLo ==> e[f[p]] == med)
    && (forall p :: ltLo <= p < unLo ==> e[f[p]] < med)
    && (forall p :: unHi < p <= gtHi ==> e[f[p]] > med)
    && (forall p :: gtHi < p <= hi ==> e[f[p]] == med)
  }

  lemma LayoutStart(f: seq<int>, e: seq<int>, lo: int, hi: int, med: int)
    requires Indexes(f, e) && 0 <= lo <= hi < |f|
    ensures Layout(f, e, lo, hi, med, lo, lo, hi, hi)
  {
  }

  lemma LayoutUp(f: seq<int>, e: seq<int>, lo: int, hi: int, med: int,
                 ltLo: int, unLo: int, unHi: int, gtHi: int)
    requires Indexes(f, e) && Layout(f, e, lo, hi, med, ltLo, unLo, unHi, gtHi) && unLo <= unHi
    ensures e[f[unLo]] < med ==> Layout(f, e, lo, hi, med, ltLo, unLo + 1, unHi, gtHi)
    ensures Indexes(Exch(f, unLo, ltLo), e)
    ensures e[f[unLo]] == med ==>
              Layout(Exch(f, unLo, ltLo), e, lo, hi, med, ltLo + 1, unLo + 1, unHi, gtHi)
  {
  }

  lemma LayoutDown(f: seq<int>, e: seq<int>, lo: int, hi: int, med: int,
                   ltLo: int, unLo: int, unHi: int, gtHi: int)
    requires Indexes(f, e) && Layout(f, e, lo, hi, med, ltLo, unLo, unHi, gtHi) && unLo <= unHi
    ensures e[f[unHi]] > med ==> Layout(f, e, lo, hi, med, ltLo, unLo, unHi - 1, gtHi)
    ensures Indexes(Exch(f, unHi, gtHi), e)
    ensures e[f[unHi]] == med ==>
              Layout(Exch(f, unHi, gtHi), e, lo, hi, med, ltLo, unLo, unHi - 1, gtHi - 1)
    ensures e[f[unLo]] > med && unLo < unHi ==> e[Exch(f, unHi, gtHi)[unLo]] > med
  {
  }

  lemma LayoutCross(f: seq<int>, e: seq<int>, lo: int, hi: int, med: int,
                    ltLo: int, unLo: int, unHi: int, gtHi: int)
    requires Indexes(f, e) && Layout(f, e, lo, hi, med, ltLo, unLo, unHi, gtHi) && unLo <= unHi
    requires e[f[unLo]] > med && e[f[unHi]] < med
    ensures Indexes(Exch(f, unLo, unHi), e)
    ensures Layout(Exch(f, unLo, unHi), e, lo, hi, med, ltLo, unLo + 1, unHi - 1, gtHi)
  {
  }

  lemma LayoutBounds(f: seq<int>, e: seq<int>, lo: int, hi: int, med: int,
                     ltLo: int, unLo: int, unHi: int, gtHi: int)
    requires Indexes(f, e) && Layout(f, e, lo, hi, med, ltLo, unLo, unHi, gtHi)
    ensures 0 <= lo <= ltLo <= unLo <= unHi + 1 <= gtHi + 1 <= hi + 1 <= |f|
  {
  }

  method ScanUp(fmap: array<int>, eclass: array<int>, ghost lo: int, ghost hi: int, med: int,
                ltLo0: int, unLo0: int, unHi: int, ghost gtHi: int, ghost f0: seq<int>)
    returns (ltLo: int, unLo: int)
    requires fmap != eclass && Indexes(fmap[..], eclass[..]) && Rearranged(f0, fmap[..], lo, hi)
    requires Layout(fmap[..], eclass[..], lo, hi, med, ltLo0, unLo0, unHi, gtHi)
    modifies fmap
    ensures Indexes(fmap[..], eclass[..]) && Rearranged(f0, fmap[..], lo, hi)
    ensures Layout(fmap[..], eclass[..], lo, hi, med, ltLo, unLo, unHi, gtHi)
    ensures 0 <= unLo0 <= unLo && (unLo <= unHi < fmap.Length ==> eclass[fmap[unLo]] > med)
  {
    hide Rearranged, Layout;
    ltLo, unLo := ltLo0, unLo0;
    LayoutBounds(fmap[..], eclass[..], lo, hi, med, ltLo, unLo, unHi, gtHi);
    while unLo <= unHi
      invariant Indexes(fmap[..], eclass[..]) && Rearranged(f0, fmap[..], lo, hi)
      invariant Layout(fmap[..], eclass[..], lo, hi, med, ltLo, unLo, unHi, gtHi)
      invariant unLo0 <= unLo
      decreases unHi + 1 - unLo
    {
      LayoutBounds(fmap[..], eclass[..], lo, hi, med, ltLo, unLo, unHi, gtHi);
      LayoutUp(fmap[..], eclass[..], lo, hi, med, ltLo, unLo, unHi, gtHi);
      var n := eclass[fmap[unLo]] - med;
      if n == 0 {
        ExchRearranges(f0, fmap[..], lo, hi, unLo, ltLo);
        Swap(fmap, unLo, ltLo);
        ltLo, unLo := ltLo + 1, unLo + 1;
        continue;
      }
      if n > 0 {
        break;
      }
      unLo := unLo + 1;
    }
  }

  method ScanDown(fmap: array<int>, eclass: array<int>, ghost lo: int, ghost hi: int, med: int,
                  ghost ltLo: int, unLo: int, unHi0: int, gtHi0: int, ghost f0: seq<int>)
    returns (unHi: int, gtHi: int)
    requires fmap != eclass && Indexes(fmap[..], eclass[..]) && Rearranged(f0, fmap[..], lo, hi)
    requires Layout(fmap[..], eclass[..], lo, hi, med, ltLo, unLo, unHi0, gtHi0)
    requires 0 <= unLo && (unLo <= unHi0 < fmap.Length ==> eclass[fmap[unLo]] > med)
    modifies fmap
    ensures Indexes(fmap[..], eclass[..]) && Rearranged(f0, fmap[..], lo, hi)
    ensures Layout(fmap[..], eclass[..], lo, hi, med, ltLo, unLo, unHi, gtHi)
    ensures unHi <= unHi0
    ensures unLo <= unHi < fmap.Length ==> eclass[fmap[unLo]] > med && eclass[fmap[unHi]] < med
  {
    hide Rearranged, Layout;
    unHi, gtHi := unHi0, gtHi0;
    LayoutBounds(fmap[..], eclass[..], lo, hi, med, ltLo, unLo, unHi, gtHi);
    while unLo <= unHi
      invariant Indexes(fmap[..], eclass[..]) && Rearranged(f0, fmap[..], lo, hi)
      invariant Layout(fmap[..], eclass[..], lo, hi, med, ltLo, unLo, unHi, gtHi)
      invariant unHi <= unHi0
      invariant unLo <= unHi < fmap.Length ==> eclass[fmap[unLo]] > med
    {
      LayoutBounds(fmap[..], eclass[..], lo, hi, med, ltLo, unLo, unHi, gtHi);
      LayoutDown(fmap[..], eclass[..], lo, hi, med, ltLo, unLo, unHi, gtHi);
      var n := eclass[fmap[unHi]] - med;
      if n == 0 {
        ExchRearranges(f0, fmap[..], lo, hi, unHi, gtHi);
        Swap(fmap, unHi, gtHi);
        gtHi, unHi := gtHi - 1, unHi - 1;
        continue;
      }
      if n < 0 {
        break;
      }
      unHi := unHi - 1;
    }
  }

  /** The scan of a whole segment against one pivot class. */
  method Scan(fmap: array<int>, eclass: array<int>, lo: int, hi: int, med: int)
    returns (ltLo: int, unLo: int, unHi: int, gtHi: int)
    requires fmap != eclass && Indexes(fmap[..], eclass[..])
    requires 0 <= lo <= hi < fmap.Length
    modifies fmap
    ensures Rearranged(old(fmap[..]), fmap[..], lo, hi)
    ensures Indexes(fmap[..], eclass[..])
    ensures Layout(fmap[..], eclass[..], lo, hi, med, ltLo, unLo, unHi, gtHi)
    ensures unHi == unLo - 1
  {
    hide Rearranged, Layout;
    unLo, ltLo, unHi, gtHi := lo, lo, hi, hi;
    ghost var f0 := fmap[..];
    RearrangedRefl(f0, lo, hi);
    LayoutStart(f0, eclass[..], lo, hi, med);
    while true
      invariant Indexes(fmap[..], eclass[..]) && Rearranged(f0, fmap[..], lo, hi)
      invariant Layout(fmap[..], eclass[..], lo, hi, med, ltLo, unLo, unHi, gtHi)
      decreases unHi + 1 - unLo
    {
      ltLo, unLo := ScanUp(fmap, eclass, lo, hi, med, ltLo, unLo, unHi, gtHi, f0);
      unHi, gtHi := ScanDown(fmap, eclass, lo, hi, med, ltLo, unLo, unHi, gtHi, f0);
      LayoutBounds(fmap[..], eclass[..], lo, hi, med, ltLo, unLo, unHi, gtHi);
      if unLo > unHi {
        break;
      }
      LayoutCross(fmap[..], eclass[..], lo, hi, med, ltLo, unLo, unHi, gtHi);
      ExchRearranges(f0, fmap[..], lo, hi, unLo, unHi);
      Swap(fmap, unLo, unHi);
      unLo, unHi := unLo + 1, unHi - 1;
    }
  }

  /** f with its n entries from p1 exchanged with its n entries from p2. */
  ghost function VExch(f: seq<int>, p1: int, p2: int, n: int): (g: seq<int>)
    requires 0 <= p1 && 0 <= n && p1 + n <= p2 && p2 + n <= |f|
    ensures |g| == |f|
  {
    seq(|f|, k requires 0 <= k < |f| =>
      if p1 <= k < p1 + n then f[k - p1 + p2]
      else if p2 <= k < p2 + n then f[k - p2 + p1]
      else f[k])
  }

  lemma VExchAt(f: seq<int>, p1: int, p2: int, n: int, k: int)
    requires 0 <= p1 && 0 <= n && p1 + n <= p2 && p2 + n <= |f| && 0 <= k < |f|
    ensures VExch(f, p1, p2, n)[k] ==
            f[if p1 <= k < p1 + n then k - p1 + p2 else if p2 <= k < p2 + n then k - p2 + p1 else k]
  {
  }

  lemma VExchZero(f: seq<int>, p1: int, p2: int)
    requires 0 <= p1 <= p2 <= |f|
    ensures VExch(f, p1, p2, 0) == f
  {
  }

  lemma VExchStep(f: seq<int>, p1: int, p2: int, d: int)
    requires 0 <= p1 && 0 <= d && p1 + d < p2 && p2 + d < |f|
    ensures Exch(VExch(f, p1, p2, d), p1 + d, p2 + d) == VExch(f, p1, p2, d + 1)
  {
  }

  /** Exchanges two disjoint stretches of n entries. */
  method VSwap(fmap: array<int>, p1: int, p2: int, n: int, ghost lo: int, ghost hi: int, ghost f0: seq<int>)
    requires 0 <= lo <= p1 && p1 + n <= p2 && p2 + n <= hi + 1 <= fmap.Length && 0 <= n
    requires Rearranged(f0, fmap[..], lo, hi)
    modifies fmap
    ensures Rearranged(f0, fmap[..], lo, hi)
    ensures fmap[..] == VExch(old(fmap[..]), p1, p2, n)
  {
    hide Rearranged, Exch, VExch;
    ghost var f := fmap[..];
    VExchZero(f, p1, p2);
    var d := 0;
    while d < n
      invariant 0 <= d <= n
      invariant Rearranged(f0, fmap[..], lo, hi)
      invariant fmap[..] == VExch(f, p1, p2, d)
    {
      ExchRearranges(f0, fmap[..], lo, hi, p1 + d, p2 + d);
      Swap(fmap, p1 + d, p2 + d);
      VExchStep(f, p1, p2, d);
      d := d + 1;
    }
  }

  /** The segment falls into smaller, equal and greater stretches; the equal one is not empty. */
  ghost predicate Parted(f: seq<int>, e: seq<int>, lo: int, n: int, m: int, hi: int, med: int)
    requires Indexes(f, e)
  {
    && 0 <= lo <= n + 1 < m <= hi + 1 <= |f|
    && (forall p :: lo <= p <= n ==> e[f[p]] < med)
    && (forall p :: n < p < m ==> e[f[p]] == med)
    && (forall p :: m <= p <= hi ==> e[f[p]] > med)
  }

  /** Splits lo..hi around the class med of some entry in it; n and m bound the outer stretches. */
  method Split(fmap: array<int>, eclass: array<int>, lo: int, hi: int, med: int, ghost pivot: int)
    returns (done: bool, n: int, m: int)
    requires fmap != eclass && Indexes(fmap[..], eclass[..])
    requires 0 <= lo <= pivot <= hi < fmap.Length && eclass[fmap[pivot]] == med
    modifies fmap
    ensures Rearranged(old(fmap[..]), fmap[..], lo, hi)
    ensures Indexes(fmap[..], eclass[..])
    ensures done ==> SortedBy(fmap[..], eclass[..], lo, hi)
    ensures !done ==> Parted(fmap[..], eclass[..], lo, n, m, hi, med)
  {
    ghost var f0 := fmap[..];
    n, m := 0, 0;
    var ltLo, unLo, unHi, gtHi := Scan(fmap, eclass, lo, hi, med);
    if gtHi < ltLo {
      return true, n, m;
    }
    PivotSurvives(f0, fmap[..], eclass[..], lo, hi, med, pivot, ltLo, unLo, unHi, gtHi);
    n, m := Gather(fmap, eclass, lo, hi, med, ltLo, unLo, unHi, gtHi, f0);
    return false, n, m;
  }

  method Gather(fmap: array<int>, eclass: array<int>, lo: int, hi: int, ghost med: int,
                ltLo: int, unLo: int, unHi: int, gtHi: int, ghost f0: seq<int>)
    returns (n: int, m: int)
    requires fmap != eclass && Indexes(fmap[..], eclass[..]) && Rearranged(f0, fmap[..], lo, hi)
    requires Layout(fmap[..], eclass[..], lo, hi, med, ltLo, unLo, unHi, gtHi) && unHi == unLo - 1
    requires lo < ltLo || gtHi < hi
    modifies fmap
    ensures Indexes(fmap[..], eclass[..]) && Rearranged(f0, fmap[..], lo, hi)
    ensures Parted(fmap[..], eclass[..], lo, n, m, hi, med)
  {
    hide Rearranged, Layout, Half, Parted, VExch;
    LayoutBounds(fmap[..], eclass[..], lo, hi, med, ltLo, unLo, unHi, gtHi);
    n := if ltLo - lo < unLo - ltLo then ltLo - lo else unLo - ltLo;
    GatherLow(fmap[..], eclass[..], lo, hi, med, ltLo, unLo, gtHi, n);
    VSwap(fmap, lo, unLo - n, n, lo, hi, f0);
    m := if hi - gtHi < gtHi - unHi then hi - gtHi else gtHi - unHi;
    n := lo + unLo - ltLo - 1;
    GatherHigh(fmap[..], eclass[..], lo, hi, med, n, unLo, gtHi, m);
    VSwap(fmap, unLo, hi - m + 1, m, lo, hi, f0);
    m := hi - (gtHi - unHi) + 1;
  }

  /** The first exchange brings the smaller entries to the front of the scanned lower part. */
  lemma GatherLow(f: seq<int>, e: seq<int>, lo: int, hi: int, med: int, ltLo: int, unLo: int, gtHi: int, n: int)
    requires Indexes(f, e) && Layout(f, e, lo, hi, med, ltLo, unLo, unLo - 1, gtHi)
    requires n == if ltLo - lo < unLo - ltLo then ltLo - lo else unLo - ltLo
    ensures Indexes(VExch(f, lo, unLo - n, n), e)
    ensures Half(VExch(f, lo, unLo - n, n), e, lo, hi, med, lo + unLo - ltLo - 1, unLo, gtHi)
  {
    var g := VExch(f, lo, unLo - n, n);
    forall p | lo <= p <= lo + unLo - ltLo - 1
      ensures e[g[p]] < med
    {
      assert g[p] == if p < lo + n then f[p - lo + unLo - n] else f[p];
    }
    forall p | lo + unLo - ltLo <= p < unLo
      ensures e[g[p]] == med
    {
      assert g[p] == if unLo - n <= p then f[p - (unLo - n) + lo] else f[p];
    }
  }

  /** Smaller and equal gathered at the front, greater and equal still to exchange at the back. */
  ghost predicate Half(f: seq<int>, e: seq<int>, lo: int, hi: int, med: int, n: int, unLo: int, gtHi: int)
    requires Indexes(f, e)
  {
    && 0 <= lo <= n + 1 <= unLo <= gtHi + 1 <= hi + 1 <= |f|
    && (forall p :: lo <= p <= n ==> e[f[p]] < med)
    && (forall p :: n < p < unLo ==> e[f[p]] == med)
    && (forall p :: unLo <= p <= gtHi ==> e[f[p]] > med)
    && (forall p :: gtHi < p <= hi ==> e[f[p]] == med)
  }

  lemma GatherHigh(f: seq<int>, e: seq<int>, lo: int, hi: int, med: int, n: int, unLo: int, gtHi: int, m: int)
    requires Indexes(f, e) && Half(f, e, lo, hi, med, n, unLo, gtHi)
    requires n + 1 < unLo || gtHi < hi
    requires m == if hi - gtHi < gtHi - unLo + 1 then hi - gtHi else gtHi - unLo + 1
    ensures Indexes(VExch(f, unLo, hi - m + 1, m), e)
    ensures Parted(VExch(f, unLo, hi - m + 1, m), e, lo, n, hi - (gtHi - unLo + 1) + 1, hi, med)
  {
    hide VExch;
    var g := VExch(f, unLo, hi - m + 1, m);
    var k := hi - (gtHi - unLo + 1) + 1;
    forall p | 0 <= p < |g|
      ensures 0 <= g[p] < |e|
      ensures lo <= p <= n ==> e[g[p]] < med
      ensures n < p < k ==> e[g[p]] == med
      ensures k <= p <= hi ==> e[g[p]] > med
    {
      VExchAt(f, unLo, hi - m + 1, m, p);
    }
  }

  lemma PivotSurvives(f: seq<int>, g: seq<int>, e: seq<int>, lo: int, hi: int, med: int, pivot: int,
                      ltLo: int, unLo: int, unHi: int, gtHi: int)
    requires Indexes(f, e) && Indexes(g, e) && Rearranged(f, g, lo, hi)
    requires 0 <= lo <= pivot <= hi < |f| && e[f[pivot]] == med
    requires Layout(g, e, lo, hi, med, ltLo, unLo, unHi, gtHi) && unHi == unLo - 1
    ensures lo < ltLo || gtHi < hi
  {
    var q := SectionValue(g, f, lo, hi, pivot);
    assert e[g[q]] == med;
  }
}
