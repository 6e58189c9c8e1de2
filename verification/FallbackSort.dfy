/** The fallback block sort: rotations bucketed by first character, then by prefixes of doubling length. */
module FallbackSort {
  import opened Permutations
  import opened Counting
  import opened Rotations
  import opened Bwt
  import opened BucketSort
  import opened Bytes
  import opened QuickSort

  // ---------- the bucket invariant ----------

  /** The header bit at i says whether the rotation there differs from its left neighbour in h characters. */
  ghost predicate Exact(b: seq<int>, f: seq<int>, bits: seq<bool>, h: nat, i: int)
    requires IsPerm(f, |b|) && 0 < i < |b| && |bits| >= |b|
  {
    if bits[i] then Lt(b, f[i-1], f[i], h) else Eq(b, f[i-1], f[i], h)
  }

  /** The 32 set and 32 clear bits that stop every scan behind the block. */
  ghost predicate Sentinels(bits: seq<bool>, n: nat) {
    && |bits| >= n + 64
    && forall k :: 0 <= k < 32 ==> bits[n + 2 * k] && !bits[n + 2 * k + 1]
  }

  /** fmap lists the rotations in the order of their first h characters, a header bit at the start of
      each class of equal prefixes. */
  ghost predicate Buckets(b: seq<int>, f: seq<int>, bits: seq<bool>, h: nat) {
    && IsPerm(f, |b|) && |b| > 0
    && Sentinels(bits, |b|)
    && bits[0]
    && forall i :: 0 < i < |b| ==> Exact(b, f, bits, h, i)
  }

  /** Start of the bucket that position i belongs to. */
  ghost function Head(bits: seq<bool>, i: nat): (j: nat)
    requires i < |bits| && bits[0]
    ensures j <= i && bits[j]
    decreases i
  {
    if bits[i] then i else Head(bits, i - 1)
  }

  /** Two positions share a bucket exactly when their prefixes are equal; otherwise both orders agree. */
  lemma {:induction false} HeadOrder(b: seq<int>, f: seq<int>, bits: seq<bool>, h: nat, i: nat, j: nat)
    requires Buckets(b, f, bits, h) && i <= j < |b|
    ensures if Head(bits, i) == Head(bits, j) then Eq(b, f[i], f[j], h)
            else Head(bits, i) < Head(bits, j) && Lt(b, f[i], f[j], h)
    decreases j
  {
    if i == j {
      EqRefl(b, f[i], h);
    } else {
      HeadOrder(b, f, bits, h, i, j - 1);
      assert Exact(b, f, bits, h, j);
      Transitive(b, f[i], f[j-1], f[j], h);
    }
  }

  lemma BucketsOrdered(b: seq<int>, f: seq<int>, bits: seq<bool>, h: nat, i: nat, j: nat)
    requires Buckets(b, f, bits, h) && i <= j < |b|
    ensures !Lt(b, f[j], f[i], h)
    ensures i < j && bits[j] ==> Lt(b, f[i], f[j], h)
  {
    HeadOrder(b, f, bits, h, i, j);
    Trichotomy(b, f[i], f[j], h);
  }

  /** Deep enough, or with every bucket a singleton, the buckets are the rotation order. */
  lemma BucketsSorted(b: seq<int>, f: seq<int>, bits: seq<bool>, h: nat)
    requires Buckets(b, f, bits, h)
    requires h > |b| || forall i :: 0 <= i < |b| ==> bits[i]
    ensures SortedRotations(b, f)
  {
    var n := |b|;
    forall i, j | 0 <= i < j < n
      ensures !Lt(b, f[j], f[i], n)
    {
      BucketsOrdered(b, f, bits, h, i, j);
      if h > n {
        DeepOrder(b, f[j], f[i], h);
      } else {
        Rotations.Split(b, f[i], f[j], h, n - h);
        assert h + (n - h) == n;
        Trichotomy(b, f[i], f[j], n);
      }
    }
  }

  // ---------- classes of the rotations h further on ----------

  /** e numbers rotations by the bucket of the rotation h further on. */
  ghost predicate ClassesAfter(b: seq<int>, e: seq<int>, h: nat) {
    && |e| >= |b|
    && forall x, y :: 0 <= x < |b| && 0 <= y < |b| ==>
         && (e[x] < e[y] <==> Lt(b, Adv(|b|, x, h), Adv(|b|, y, h), h))
         && (e[x] == e[y] <==> Eq(b, Adv(|b|, x, h), Adv(|b|, y, h), h))
  }

  lemma HeadsAreClasses(b: seq<int>, f: seq<int>, bits: seq<bool>, e: seq<int>, h: nat)
    requires Buckets(b, f, bits, h) && h <= |b| && |e| >= |b|
    requires forall i :: 0 <= i < |b| ==> e[Back(|b|, f[i], h)] == Head(bits, i)
    ensures ClassesAfter(b, e, h)
  {
    var n := |b|;
    forall x, y | 0 <= x < n && 0 <= y < n
      ensures e[x] < e[y] <==> Lt(b, Adv(n, x, h), Adv(n, y, h), h)
      ensures e[x] == e[y] <==> Eq(b, Adv(n, x, h), Adv(n, y, h), h)
    {
      AdvSum(n, x, h);
      AdvSum(n, y, h);
      var i := PermIsOnto(f, n, Adv(n, x, h));
      var j := PermIsOnto(f, n, Adv(n, y, h));
      assert e[Back(n, f[i], h)] == Head(bits, i) && e[Back(n, f[j], h)] == Head(bits, j);
      if i <= j {
        HeadOrder(b, f, bits, h, i, j);
      } else {
        HeadOrder(b, f, bits, h, j, i);
      }
      Trichotomy(b, f[i], f[j], h);
    }
  }

  /** The position h characters back round the block. */
  function Back(n: nat, i: nat, h: nat): (k: nat)
    requires i < n && h <= n
    ensures k < n
  {
    if i - h < 0 then i - h + n else i - h
  }

  lemma BackDistinct(n: nat, f: seq<int>, i: nat, h: nat)
    requires IsPerm(f, n) && h <= n && i < n
    ensures forall q :: 0 <= q < i ==> Back(n, f[q], h) != Back(n, f[i], h)
  {
  }

  method NumberClasses(fmap: array<int>, eclass: array<int>, bh: array<bool>, nblock: int, h: int, ghost b: seq<int>)
    requires fmap != eclass && nblock == |b| == fmap.Length == eclass.Length
    requires 1 <= h <= nblock && Buckets(b, fmap[..], bh[..], h)
    modifies eclass
    ensures ClassesAfter(b, eclass[..], h)
    ensures forall i :: 0 <= i < nblock ==> 0 <= eclass[i] < nblock
  {
    var j := 0;
    var i := 0;
    ghost var f, bits := fmap[..], bh[..];
    assert IsPerm(f, nblock) && |bits| >= nblock && bits[0];
    hide Buckets;
    while i < nblock
      invariant 0 <= i <= nblock
      invariant 0 < i ==> j == Head(bits, i - 1)
      invariant forall q :: 0 <= q < i ==> eclass[Back(nblock, f[q], h)] == Head(bits, q)
    {
      if bh[i] {
        j := i;
      }
      var k := fmap[i] - h;
      if k < 0 {
        k := k + nblock;
      }
      BackDistinct(nblock, f, i, h);
      eclass[k] := j;
      i := i + 1;
    }
    HeadsAreClasses(b, f, bits, eclass[..], h);
    HeadsInRange(b, f, bits, eclass[..], h);
  }

  lemma HeadsInRange(b: seq<int>, f: seq<int>, bits: seq<bool>, e: seq<int>, h: nat)
    requires Buckets(b, f, bits, h) && h <= |b| == |e|
    requires forall i :: 0 <= i < |b| ==> e[Back(|b|, f[i], h)] == Head(bits, i)
    ensures forall i :: 0 <= i < |b| ==> 0 <= e[i] < |b|
  {
    forall x | 0 <= x < |b|
      ensures 0 <= e[x] < |b|
    {
      AdvSum(|b|, x, h);
      var q := PermIsOnto(f, |b|, Adv(|b|, x, h));
      assert Back(|b|, f[q], h) == x;
    }
  }

  // ---------- scanning the header bits a word at a time ----------

  /** The 32 header bits of the word that holds bit k all have the value v. */
  predicate WordIs(bh: array<bool>, k: nat, v: bool)
    requires k / 32 * 32 + 32 <= bh.Length
    reads bh
  {
    forall q :: k / 32 * 32 <= q < k / 32 * 32 + 32 ==> bh[q] == v
  }

  /** Moves k up over bits of value v to the first bit of the other value, which stands at or before stop. */
  method SkipBits(bh: array<bool>, k0: nat, v: bool, ghost stop: nat) returns (k: nat)
    requires k0 <= stop && stop / 32 * 32 + 32 <= bh.Length && bh[stop] != v
    ensures k0 <= k <= stop && bh[k] != v
    ensures forall q :: k0 <= q < k ==> bh[q] == v
  {
    k := k0;
    while bh[k] == v && k % 32 != 0
      invariant k0 <= k <= stop
      invariant forall q :: k0 <= q < k ==> bh[q] == v
      decreases stop - k
    {
      k := k + 1;
    }
    if bh[k] == v {
      while WordIs(bh, k, v)
        invariant k0 <= k <= stop && k % 32 == 0
        invariant forall q :: k0 <= q < k ==> bh[q] == v
        decreases stop - k
      {
        assert forall q :: k <= q < k + 32 ==> bh[q] == v;
        k := k + 32;
      }
      while bh[k] == v
        invariant k0 <= k <= stop
        invariant forall q :: k0 <= q < k ==> bh[q] == v
        decreases stop - k
      {
        k := k + 1;
      }
    }
  }

  /** The next bucket after r0 that is not a singleton; l at or past the block end when there is none. */
  method NextBucket(bh: array<bool>, nblock: nat, r0: int) returns (l: int, r: int)
    requires -1 <= r0 < nblock && Sentinels(bh[..], nblock)
    requires 32 * (nblock / 32 + 3) <= bh.Length && bh[r0 + 1]
    ensures r0 < l && forall q :: r0 < q <= l && q < nblock ==> bh[q]
    ensures l < nblock ==> l < r < nblock && bh[r + 1] && forall q :: l < q <= r ==> !bh[q]
  {
    assert !bh[nblock + 2 * 0 + 1] && bh[nblock + 2 * 0];
    var k := SkipBits(bh, r0 + 1, true, nblock + 1);
    l, r := k - 1, k - 1;
    if l < nblock {
      k := SkipBits(bh, k, false, nblock);
      r := k - 1;
    }
  }

  // ---------- one refinement pass ----------

  /** Part-way through the pass at depth h: positions up to r hold the buckets of depth 2h, the rest
      still those of depth h. */
  ghost predicate Refining(b: seq<int>, f0: seq<int>, bits0: seq<bool>, f: seq<int>, bits: seq<bool>, h: nat, r: int)
    requires Buckets(b, f0, bits0, h)
  {
    && -1 <= r < |b| && bits0[r + 1]
    && IsPerm(f, |b|) && |bits| == |bits0|
    && bits[0] && Sentinels(bits, |b|)
    && (forall i :: 0 <= i < |b| ==> Eq(b, f0[i], f[i], h))
    && (forall i :: 0 < i <= r ==> Exact(b, f, bits, 2 * h, i))
    && (forall i :: r < i < |b| ==> f[i] == f0[i])
    && (forall i :: r < i < |bits| ==> bits[i] == bits0[i])
  }

  /** A position before which the depth-h prefixes already differ stays a header at depth 2h. */
  lemma HeaderStays(b: seq<int>, f0: seq<int>, bits0: seq<bool>, f: seq<int>, bits: seq<bool>, h: nat, i: int)
    requires Buckets(b, f0, bits0, h) && IsPerm(f, |b|) && |bits| >= |b|
    requires 0 < i < |b| && bits0[i] && bits[i]
    requires Eq(b, f0[i-1], f[i-1], h) && Eq(b, f0[i], f[i], h)
    ensures Exact(b, f, bits, 2 * h, i)
  {
    assert Exact(b, f0, bits0, h, i);
    Trichotomy(b, f0[i-1], f[i-1], h);
    Transitive(b, f[i-1], f0[i-1], f0[i], h);
    Transitive(b, f[i-1], f0[i], f[i], h);
    Rotations.Split(b, f[i-1], f[i], h, h);
    assert h + h == 2 * h;
  }

  /** Inside a bucket of depth h the class numbers decide the order at depth 2h. */
  lemma ClassesDecide(b: seq<int>, e: seq<int>, h: nat, x: int, y: int)
    requires ClassesAfter(b, e, h) && 0 <= x < |b| && 0 <= y < |b| && Eq(b, x, y, h)
    ensures e[x] < e[y] ==> Lt(b, x, y, 2 * h)
    ensures e[x] == e[y] ==> Eq(b, x, y, 2 * h)
  {
    Rotations.Split(b, x, y, h, h);
    assert h + h == 2 * h;
  }

  /** The bits after the sorted bucket l..r has been scanned for changes of class. */
  ghost predicate HeadersSet(bits: seq<bool>, bits': seq<bool>, g: seq<int>, e: seq<int>, l: int, r: int)
    requires Indexes(g, e) && 0 <= l <= r < |g|
  {
    && r < |bits| && |bits'| == |bits|
    && bits'[l]
    && (forall i :: l < i <= r ==> bits'[i] == (bits[i] || e[g[i-1]] != e[g[i]]))
    && (forall i :: 0 <= i < |bits| && (i < l || r < i) ==> bits'[i] == bits[i])
  }

  /** l..r is a whole bucket of depth h that the pass has not reached yet. */
  ghost predicate IsBucket(bits0: seq<bool>, n: nat, r0: int, l: int, r: int)
    requires |bits0| >= n + 1
  {
    && -1 <= r0 < l < r < n && bits0[r + 1]
    && (forall q :: r0 < q <= l ==> bits0[q])
    && (forall q :: l < q <= r ==> !bits0[q])
  }

  lemma {:induction false} BucketHead(b: seq<int>, f0: seq<int>, bits0: seq<bool>, h: nat, r0: int, l: int, r: int,
                                      i: int)
    requires Buckets(b, f0, bits0, h) && IsBucket(bits0, |b|, r0, l, r) && l <= i <= r
    ensures Head(bits0, i) == l
    decreases i
  {
    if i > l {
      BucketHead(b, f0, bits0, h, r0, l, r, i - 1);
    }
  }

  /** Sorting inside the bucket leaves every position with the same depth-h prefix. */
  lemma PrefixKept(b: seq<int>, f0: seq<int>, bits0: seq<bool>, f: seq<int>, g: seq<int>, h: nat, r0: int, l: int,
                   r: int, i: int)
    requires Buckets(b, f0, bits0, h) && IsBucket(bits0, |b|, r0, l, r)
    requires IsPerm(f, |b|) && IsPerm(g, |b|) && Rearranged(f, g, l, r)
    requires forall q :: 0 <= q < |b| ==> Eq(b, f0[q], f[q], h)
    requires forall q :: r0 < q < |b| ==> f[q] == f0[q]
    requires 0 <= i < |b|
    ensures Eq(b, f0[i], g[i], h)
  {
    if l <= i <= r {
      var q := SectionValue(f, g, l, r, i);
      BucketHead(b, f0, bits0, h, r0, l, r, i);
      BucketHead(b, f0, bits0, h, r0, l, r, q);
      if i <= q {
        HeadOrder(b, f0, bits0, h, i, q);
      } else {
        HeadOrder(b, f0, bits0, h, q, i);
      }
      Trichotomy(b, f0[i], f0[q], h);
    }
  }

  lemma BucketRefined(b: seq<int>, f0: seq<int>, bits0: seq<bool>, f: seq<int>, bits: seq<bool>,
                      g: seq<int>, bits': seq<bool>, e: seq<int>, h: nat, r0: int, l: int, r: int)
    requires Buckets(b, f0, bits0, h) && Refining(b, f0, bits0, f, bits, h, r0)
    requires IsBucket(bits0, |b|, r0, l, r)
    requires |e| == |b| && ClassesAfter(b, e, h)
    requires Rearranged(f, g, l, r) && Indexes(g, e) && SortedBy(g, e, l, r)
    requires HeadersSet(bits, bits', g, e, l, r)
    ensures Refining(b, f0, bits0, g, bits', h, r)
  {
    var n := |b|;
    PermOfMultiset(f, g, n);
    forall i | 0 <= i < n
      ensures Eq(b, f0[i], g[i], h)
    {
      PrefixKept(b, f0, bits0, f, g, h, r0, l, r, i);
    }
    forall i | 0 < i <= r
      ensures Exact(b, g, bits', 2 * h, i)
    {
      RefinedExact(b, f0, bits0, f, bits, g, bits', e, h, r0, l, r, i);
    }
    RefinedSentinels(bits, bits', n, r);
  }

  lemma RefinedSentinels(bits: seq<bool>, bits': seq<bool>, n: nat, r: int)
    requires Sentinels(bits, n) && |bits'| == |bits| && r < n
    requires forall i :: 0 <= i < |bits| && r < i ==> bits'[i] == bits[i]
    ensures Sentinels(bits', n)
  {
  }

  lemma RefinedExact(b: seq<int>, f0: seq<int>, bits0: seq<bool>, f: seq<int>, bits: seq<bool>,
                     g: seq<int>, bits': seq<bool>, e: seq<int>, h: nat, r0: int, l: int, r: int, i: int)
    requires Buckets(b, f0, bits0, h) && Refining(b, f0, bits0, f, bits, h, r0)
    requires IsBucket(bits0, |b|, r0, l, r) && 0 < i <= r
    requires |e| == |b| && ClassesAfter(b, e, h)
    requires Rearranged(f, g, l, r) && Indexes(g, e) && SortedBy(g, e, l, r) && IsPerm(g, |b|)
    requires HeadersSet(bits, bits', g, e, l, r)
    requires forall q :: 0 <= q < |b| ==> Eq(b, f0[q], g[q], h)
    ensures Exact(b, g, bits', 2 * h, i)
  {
    if i <= r0 {
      assert Exact(b, f, bits, 2 * h, i);
    } else if i <= l {
      assert bits'[i] by {
        assert i < l ==> bits'[i] == bits[i];
      }
      assert bits0[i] && bits'[i];
      assert Eq(b, f0[i-1], g[i-1], h) && Eq(b, f0[i], g[i], h);
      HeaderStays(b, f0, bits0, g, bits', h, i);
    } else {
      assert Exact(b, f0, bits0, h, i) && !bits0[i] && bits[i] == bits0[i];
      assert Eq(b, f0[i-1], g[i-1], h) && Eq(b, f0[i], g[i], h);
      Trichotomy(b, f0[i-1], g[i-1], h);
      Transitive(b, g[i-1], f0[i-1], f0[i], h);
      Transitive(b, g[i-1], f0[i], g[i], h);
      ClassesDecide(b, e, h, g[i-1], g[i]);
      assert e[g[i-1]] <= e[g[i]];
    }
  }

  /** Nothing but singletons lies behind r0: the pass is complete. */
  lemma PassDone(b: seq<int>, f0: seq<int>, bits0: seq<bool>, f: seq<int>, bits: seq<bool>, h: nat, r0: int)
    requires Buckets(b, f0, bits0, h) && Refining(b, f0, bits0, f, bits, h, r0)
    requires forall q :: r0 < q < |b| ==> bits0[q]
    ensures Buckets(b, f, bits, 2 * h)
  {
    forall i | 0 < i < |b|
      ensures Exact(b, f, bits, 2 * h, i)
    {
      if i > r0 {
        assert bits0[i] && bits[i];
        assert Eq(b, f0[i-1], f[i-1], h) && Eq(b, f0[i], f[i], h);
        HeaderStays(b, f0, bits0, f, bits, h, i);
      }
    }
  }

  /** Sorts one bucket by class and sets a header bit at every change of class. */
  method RefineBucket(fmap: array<int>, eclass: array<int>, bh: array<bool>, l: int, r: int)
    requires fmap != eclass && fmap.Length == eclass.Length <= 900000
    requires Indexes(fmap[..], eclass[..]) && forall i :: 0 <= i < eclass.Length ==> 0 <= eclass[i]
    requires 0 <= l < r < fmap.Length && r < bh.Length && bh[l]
    modifies fmap, bh
    ensures Rearranged(old(fmap[..]), fmap[..], l, r) && Indexes(fmap[..], eclass[..])
    ensures SortedBy(fmap[..], eclass[..], l, r)
    ensures HeadersSet(old(bh[..]), bh[..], fmap[..], eclass[..], l, r)
  {
    hide Rearranged, SortedBy;
    FallbackQSort3(fmap, eclass, l, r);
    SetHeaders(fmap, eclass, bh, l, r);
  }

  method SetHeaders(fmap: array<int>, eclass: array<int>, bh: array<bool>, l: int, r: int)
    requires Indexes(fmap[..], eclass[..]) && forall i :: 0 <= i < eclass.Length ==> 0 <= eclass[i]
    requires 0 <= l < r < fmap.Length && r < bh.Length
    modifies bh
    ensures HeadersSet(old(bh[..]), bh[..], fmap[..], eclass[..], l, r)
  {
    ghost var f, e := fmap[..], eclass[..];
    var cc := -1;
    var i := l;
    while i <= r
      invariant l <= i <= r + 1 && (i > l ==> bh[l])
      invariant cc == if i == l then -1 else e[f[i - 1]]
      invariant forall q :: l < q < i ==> bh[q] == (old(bh[q]) || e[f[q-1]] != e[f[q]])
      invariant forall q :: 0 <= q < bh.Length && (q < l || i <= q) ==> bh[q] == old(bh[q])
    {
      var cc1 := eclass[fmap[i]];
      if cc != cc1 {
        bh[i] := true;
        cc := cc1;
      }
      i := i + 1;
    }
  }

  lemma RefiningStart(b: seq<int>, f: seq<int>, bits: seq<bool>, h: nat)
    requires Buckets(b, f, bits, h)
    ensures Refining(b, f, bits, f, bits, h, -1)
  {
    forall i | 0 <= i < |b|
      ensures Eq(b, f[i], f[i], h)
    {
      EqRefl(b, f[i], h);
    }
  }

  lemma RefiningFacts(b: seq<int>, f0: seq<int>, bits0: seq<bool>, f: seq<int>, bits: seq<bool>, h: nat, r: int)
    requires Buckets(b, f0, bits0, h) && Refining(b, f0, bits0, f, bits, h, r)
    ensures IsPerm(f, |b|) && -1 <= r < |b| && Sentinels(bits, |b|)
    ensures r + 1 < |bits| == |bits0| && bits[r + 1]
    ensures forall i :: r < i < |bits| ==> bits[i] == bits0[i]
  {
  }

  /** One pass at depth h: every bucket of two or more rotations is split by the next h characters. */
  method RefinePass(fmap: array<int>, eclass: array<int>, bh: array<bool>, nblock: int, h: int, ghost b: seq<int>)
    returns (nNotDone: nat)
    requires fmap != eclass && nblock == |b| == fmap.Length == eclass.Length <= 900000
    requires 32 * (nblock / 32 + 3) <= bh.Length
    requires 1 <= h <= nblock && Buckets(b, fmap[..], bh[..], h)
    modifies fmap, eclass, bh
    ensures Buckets(b, fmap[..], bh[..], 2 * h)
    ensures nNotDone == 0 ==> forall i :: 0 <= i < nblock ==> bh[i]
  {
    ghost var f0, bits0 := fmap[..], bh[..];
    RefiningStart(b, f0, bits0, h);
    NumberClasses(fmap, eclass, bh, nblock, h, b);
    nNotDone := 0;
    var r := -1;
    assert Buckets(b, f0, bits0, h) && Refining(b, f0, bits0, fmap[..], bh[..], h, r);
    hide Buckets, Refining, ClassesAfter, Rearranged, SortedBy, HeadersSet;
    while true
      invariant -1 <= r < nblock && Refining(b, f0, bits0, fmap[..], bh[..], h, r)
      invariant ClassesAfter(b, eclass[..], h)
      invariant nNotDone == 0 ==> r == -1
      invariant forall i :: 0 <= i < nblock ==> 0 <= eclass[i] < nblock
      decreases nblock - r
    {
      RefiningFacts(b, f0, bits0, fmap[..], bh[..], h, r);
      var l, r1 := NextBucket(bh, nblock, r);
      if l >= nblock {
        break;
      }
      ghost var f, bits := fmap[..], bh[..];
      nNotDone := nNotDone + (r1 - l + 1);
      assert IsBucket(bits0, nblock, r, l, r1);
      RefineBucket(fmap, eclass, bh, l, r1);
      BucketRefined(b, f0, bits0, f, bits, fmap[..], bh[..], eclass[..], h, r, l, r1);
      r := r1;
    }
    assert forall q :: r < q < nblock ==> bits0[q];
    PassDone(b, f0, bits0, fmap[..], bh[..], h, r);
  }

  // ---------- the initial radix sort ----------

  method CountBytes(block: array<int>, ghost b: seq<int>) returns (ftab: array<int>, ftabCopy: array<int>)
    requires block[..] == b && IsBytes(b)
    ensures fresh(ftab) && fresh(ftabCopy) && ftab != ftabCopy && ftab.Length == 257 && ftabCopy.Length == 256
    ensures forall c :: 0 <= c < 256 ==> ftab[c] == Below(b, c + 1) && ftabCopy[c] == Count(b, c)
  {
    ftab := new int[257](_ => 0);
    ftabCopy := new int[256];
    var i := 0;
    while i < block.Length
      invariant 0 <= i <= block.Length
      invariant forall c :: 0 <= c < 257 ==> ftab[c] == Count(b[..i], c)
    {
      forall c | 0 <= c < 257
        ensures Count(b[..i+1], c) == Count(b[..i], c) + (if b[i] == c then 1 else 0)
      {
        CountAppend(b, i, c);
      }
      ftab[block[i]] := ftab[block[i]] + 1;
      i := i + 1;
    }
    assert b[..i] == b;
    i := 0;
    while i < 256
      invariant 0 <= i <= 256
      invariant forall c :: 0 <= c < 257 ==> ftab[c] == Count(b, c)
      invariant forall c :: 0 <= c < i ==> ftabCopy[c] == Count(b, c)
    {
      ftabCopy[i] := ftab[i];
      i := i + 1;
    }
    BelowNone(b, 0);
    BelowStep(b, 0);
    i := 1;
    while i < 257
      invariant 1 <= i <= 257
      invariant forall c :: 0 <= c < i ==> ftab[c] == Below(b, c + 1)
      invariant forall c :: i <= c < 257 ==> ftab[c] == Count(b, c)
      invariant forall c :: 0 <= c < 256 ==> ftabCopy[c] == Count(b, c)
    {
      BelowStep(b, i);
      ftab[i] := ftab[i] + ftab[i - 1];
      i := i + 1;
    }
  }

  /** Where the initial sort puts rotation i: its byte's bucket, filled from the top. */
  ghost function RevPlace(b: seq<int>, i: nat): int
    requires i < |b|
  {
    Below(b, b[i] + 1) - 1 - Count(b[..i], b[i])
  }

  lemma RevPlaceRange(b: seq<int>, i: nat)
    requires i < |b|
    ensures 0 <= Below(b, b[i]) <= RevPlace(b, i) < Below(b, b[i] + 1) <= |b|
  {
    hide Below, Count;
    CountWhole(b, b[i], i);
    BelowStep(b, b[i]);
  }

  lemma RevPlaceOrder(b: seq<int>, i: nat, k: nat)
    requires i < |b| && k < |b|
    requires b[i] < b[k] || (b[i] == b[k] && k < i)
    ensures RevPlace(b, i) < RevPlace(b, k)
  {
    RevPlaceRange(b, i);
    RevPlaceRange(b, k);
    if b[i] < b[k] {
      BelowMonotone(b, b[i] + 1, b[k]);
    } else {
      CountPrefix(b, b[i], k, i);
    }
  }

  ghost function RevPlaces(b: seq<int>): (t: seq<int>)
    ensures |t| == |b|
  {
    seq(|b|, i requires 0 <= i < |b| => RevPlace(b, i))
  }

  lemma RevPlacesPerm(b: seq<int>)
    ensures IsPerm(RevPlaces(b), |b|)
  {
    var t := RevPlaces(b);
    forall i | 0 <= i < |b|
      ensures 0 <= t[i] < |b|
    {
      RevPlaceRange(b, i);
    }
    forall i, j | 0 <= i < j < |b|
      ensures t[i] != t[j]
    {
      if b[i] < b[j] {
        RevPlaceOrder(b, i, j);
      } else {
        RevPlaceOrder(b, j, i);
      }
    }
  }

  method FillBuckets(fmap: array<int>, block: array<int>, ftab: array<int>, ghost b: seq<int>)
    requires fmap != block && fmap != ftab && block != ftab
    requires block[..] == b && IsBytes(b) && fmap.Length == |b| && ftab.Length == 257
    requires forall c :: 0 <= c < 256 ==> ftab[c] == Below(b, c + 1)
    modifies fmap, ftab
    ensures forall i :: 0 <= i < |b| ==> 0 <= RevPlace(b, i) < |b| && fmap[RevPlace(b, i)] == i
    ensures forall c :: 0 <= c < 256 ==> ftab[c] == Below(b, c)
  {
    RevPlacesPerm(b);
    ghost var t := RevPlaces(b);
    var i := 0;
    while i < block.Length
      invariant 0 <= i <= block.Length && block[..] == b
      invariant forall c :: 0 <= c < 256 ==> ftab[c] == Below(b, c + 1) - Count(b[..i], c)
      invariant forall q :: 0 <= q < i ==> fmap[t[q]] == q
    {
      var j := block[i];
      var k := ftab[j] - 1;
      assert k == t[i];
      forall c | 0 <= c < 256
        ensures Count(b[..i+1], c) == Count(b[..i], c) + (if b[i] == c then 1 else 0)
      {
        CountAppend(b, i, c);
      }
      ftab[j] := k;
      fmap[k] := i;
      i := i + 1;
    }
    assert b[..i] == b;
    forall c | 0 <= c < 256
      ensures ftab[c] == Below(b, c)
    {
      BelowStep(b, c);
    }
    forall q | 0 <= q < |b|
      ensures 0 <= RevPlace(b, q) < |b| && fmap[RevPlace(b, q)] == q
    {
      assert t[q] == RevPlace(b, q);
    }
  }

  /** Clears the table, sets a header bit at every bucket start and the sentinels behind the block. */
  method MarkHeaders(bh: array<bool>, ftab: array<int>, nblock: nat)
    requires 32 * (nblock / 32 + 3) <= bh.Length && ftab.Length == 257
    requires forall c :: 0 <= c < 256 ==> 0 <= ftab[c] <= nblock
    modifies bh
    ensures Sentinels(bh[..], nblock)
    ensures forall p :: 0 <= p < nblock ==> (bh[p] <==> p in ftab[..256])
  {
    var nBhtab := 2 + nblock / 32;
    var i := 0;
    while i < 32 * nBhtab
      invariant 0 <= i <= 32 * nBhtab
      invariant forall p :: 0 <= p < i ==> !bh[p]
    {
      bh[i] := false;
      i := i + 1;
    }
    i := 0;
    while i < 256
      invariant 0 <= i <= 256
      invariant forall p :: 0 <= p < nblock ==> (bh[p] <==> p in ftab[..i])
    {
      assert ftab[..i+1] == ftab[..i] + [ftab[i]];
      bh[ftab[i]] := true;
      i := i + 1;
    }
    i := 0;
    while i < 32
      invariant 0 <= i <= 32
      invariant forall p :: 0 <= p < nblock ==> (bh[p] <==> p in ftab[..256])
      invariant forall k :: 0 <= k < i ==> bh[nblock + 2 * k] && !bh[nblock + 2 * k + 1]
    {
      bh[nblock + 2 * i] := true;
      bh[nblock + 2 * i + 1] := false;
      i := i + 1;
    }
  }

  /** The bucket of position p in the byte order: the header bits stand exactly where the byte changes. */
  lemma InitialBuckets(b: seq<int>, f: seq<int>, bits: seq<bool>, starts: seq<int>)
    requires |b| > 0 && IsBytes(b) && |f| == |b|
    requires forall i :: 0 <= i < |b| ==> 0 <= RevPlace(b, i) < |b| && f[RevPlace(b, i)] == i
    requires |starts| == 256 && forall c :: 0 <= c < 256 ==> starts[c] == Below(b, c)
    requires Sentinels(bits, |b|) && forall p :: 0 <= p < |b| ==> (bits[p] <==> p in starts)
    ensures Buckets(b, f, bits, 1)
  {
    var n := |b|;
    RevPlacesPerm(b);
    assert forall i :: 0 <= i < n ==> RevPlaces(b)[i] == RevPlace(b, i);
    InversePerm(RevPlaces(b), f, n);
    BelowNone(b, 0);
    assert starts[0] in starts;
    forall p | 0 < p < n
      ensures Exact(b, f, bits, 1, p)
    {
      InitialExact(b, f, bits, starts, p);
    }
  }

  lemma InitialExact(b: seq<int>, f: seq<int>, bits: seq<bool>, starts: seq<int>, p: nat)
    requires IsBytes(b) && IsPerm(f, |b|) && 0 < p < |b| <= |bits|
    requires forall j :: 0 <= j < |b| ==> RevPlace(b, f[j]) == j
    requires |starts| == 256 && forall c :: 0 <= c < 256 ==> starts[c] == Below(b, c)
    requires forall q :: 0 <= q < |b| ==> (bits[q] <==> q in starts)
    ensures Exact(b, f, bits, 1, p)
  {
    var x, y := f[p-1], f[p];
    RevPlaceRange(b, x);
    RevPlaceRange(b, y);
    if b[y] < b[x] {
      RevPlaceOrder(b, y, x);
    } else if b[x] < b[y] {
      BelowMonotone(b, b[x] + 1, b[y]);
      assert starts[b[y]] == p;
    } else if p in starts {
      var c :| 0 <= c < 256 && starts[c] == p;
      if c <= b[x] {
        BelowMonotone(b, c, b[x]);
      } else {
        BelowMonotone(b, b[x] + 1, c);
      }
    }
    assert Lt(b, x, y, 1) <==> b[x] < b[y];
  }

  // ---------- the sort ----------

  /** Writes the block back from the sorted order and the byte counts alone. */
  method Reconstruct(fmap: array<int>, ftabCopy: array<int>, block: array<int>, ghost b: seq<int>)
    requires fmap != block && ftabCopy != block && fmap != ftabCopy
    requires IsBytes(b) && SortedRotations(b, fmap[..]) && block.Length == |b|
    requires ftabCopy.Length == 256 && forall c :: 0 <= c < 256 ==> ftabCopy[c] == Count(b, c)
    modifies block, ftabCopy
    ensures block[..] == b
  {
    ghost var f := fmap[..];
    ghost var g := Permuted(b, f);
    CountsLeft(b, f, ftabCopy[..]);
    hide Left, Count, SortedRotations;
    var j := 0;
    var i := 0;
    while i < fmap.Length
      invariant 0 <= i <= fmap.Length && 0 <= j < 256 && fmap[..] == f
      invariant Left(ftabCopy[..], g[i..])
      invariant forall c :: 0 <= c < j ==> ftabCopy[c] == 0
      invariant forall q :: 0 <= q < i ==> block[f[q]] == b[f[q]]
    {
      NextCounted(ftabCopy[..], g, i);
      while ftabCopy[j] == 0
        invariant 0 <= j <= g[i]
        invariant forall c :: 0 <= c < j ==> ftabCopy[c] == 0
        decreases g[i] - j
      {
        j := j + 1;
      }
      SmallestCounted(b, f, ftabCopy[..], i, j);
      ghost var tab: seq<int> := ftabCopy[..];
      ftabCopy[j] := ftabCopy[j] - 1;
      assert ftabCopy[..] == tab[j := tab[j] - 1];
      block[fmap[i]] := j;
      i := i + 1;
    }
    PermCovers(f, block[..], b);
  }

  lemma PermCovers(f: seq<int>, l: seq<int>, b: seq<int>)
    requires IsPerm(f, |b|) && |l| == |b|
    requires forall q :: 0 <= q < |b| ==> l[f[q]] == b[f[q]]
    ensures l == b
  {
    forall x | 0 <= x < |b|
      ensures l[x] == b[x]
    {
      var q := PermIsOnto(f, |b|, x);
    }
  }

  /** The table counts every byte of what is left. */
  ghost predicate Left(tab: seq<int>, rest: seq<int>) {
    |tab| == 256 && forall c :: 0 <= c < 256 ==> tab[c] == Count(rest, c)
  }

  lemma CountsLeft(b: seq<int>, f: seq<int>, tab: seq<int>)
    requires IsPerm(f, |b|) && |tab| == 256 && forall c :: 0 <= c < 256 ==> tab[c] == Count(b, c)
    ensures Left(tab, Permuted(b, f)[0..])
  {
    assert Permuted(b, f)[0..] == Permuted(b, f);
    forall c | 0 <= c < 256
      ensures tab[c] == Count(Permuted(b, f), c)
    {
      CountPermuted(b, f, c);
    }
  }

  /** The next byte is still counted; taking it off the table leaves the counts of the rest. */
  lemma NextCounted(tab: seq<int>, g: seq<int>, i: nat)
    requires i < |g| && 0 <= g[i] < 256 && Left(tab, g[i..])
    ensures |tab| == 256 && tab[g[i]] > 0
    ensures Left(tab[g[i] := tab[g[i]] - 1], g[i+1..])
  {
    assert g[i..][1..] == g[i+1..];
    forall c | 0 <= c < 256
      ensures Count(g[i..], c) == Count(g[i+1..], c) + (if c == g[i] then 1 else 0)
    {
      CountHead(g[i..], c);
    }
  }

  lemma {:induction false} CountHead(l: seq<int>, c: int)
    requires l != []
    ensures Count(l, c) == Count(l[1..], c) + (if l[0] == c then 1 else 0)
    decreases |l|
  {
    if |l| > 1 {
      CountHead(l[..|l|-1], c);
      assert l[..|l|-1][1..] == l[1..][..|l|-2];
    }
  }

  lemma {:induction false} CountedOccurs(l: seq<int>, c: int) returns (k: nat)
    requires Count(l, c) > 0
    ensures k < |l| && l[k] == c
  {
    if l[|l|-1] == c {
      k := |l| - 1;
    } else {
      k := CountedOccurs(l[..|l|-1], c);
    }
  }

  /** In sorted order the smallest byte still counted is the next one. */
  lemma SmallestCounted(b: seq<int>, f: seq<int>, tab: seq<int>, i: nat, j: int)
    requires SortedRotations(b, f) && i < |b| && Left(tab, Permuted(b, f)[i..])
    requires 0 <= j <= Permuted(b, f)[i] && j < 256 && tab[j] != 0
    ensures j == Permuted(b, f)[i]
  {
    var g := Permuted(b, f);
    var k := CountedOccurs(g[i..], j);
    if k > 0 {
      assert !Lt(b, f[i + k], f[i], |b|);
    }
  }

  /** Sorts the rotations of the block; the block array is overwritten on the way and rebuilt. */
  method FallbackSort(fmap: array<int>, eclass: array<int>, block: array<int>, bh: array<bool>, nblock: int)
    requires fmap != eclass && fmap != block && eclass != block
    requires 0 < nblock == fmap.Length == eclass.Length == block.Length <= 900000
    requires 32 * (nblock / 32 + 3) <= bh.Length && IsBytes(block[..])
    modifies fmap, eclass, block, bh
    ensures block[..] == old(block[..])
    ensures SortedRotations(block[..], fmap[..])
  {
    ghost var b := block[..];
    var ftab, ftabCopy := CountBytes(block, b);
    FillBuckets(fmap, block, ftab, b);
    MarkHeaders(bh, ftab, nblock);
    InitialBuckets(b, fmap[..], bh[..], ftab[..256]);
    var h := 1;
    while true
      invariant 1 <= h <= nblock && Buckets(b, fmap[..], bh[..], h)
      invariant forall c :: 0 <= c < 256 ==> ftabCopy[c] == Count(b, c)
      decreases nblock - h
    {
      var nNotDone := RefinePass(fmap, eclass, bh, nblock, h, b);
      h := 2 * h;
      if h > nblock || nNotDone == 0 {
        break;
      }
    }
    BucketsSorted(b, fmap[..], bh[..], h);
    Reconstruct(fmap, ftabCopy, block, b);
  }

  /** The primary index: the row of the rotation that starts the block. */
  method FindOrigPtr(ptr: array<int>, nblock: int) returns (origPtr: int)
    requires nblock == ptr.Length > 0 && IsPerm(ptr[..], nblock)
    ensures 0 <= origPtr < nblock && ptr[origPtr] == 0
  {
    origPtr := -1;
    var i := 0;
    while i < nblock
      invariant 0 <= i <= nblock && origPtr == -1
      invariant forall q :: 0 <= q < i ==> ptr[q] != 0
    {
      if ptr[i] == 0 {
        origPtr := i;
        break;
      }
      i := i + 1;
    }
    ghost var k := PermIsOnto(ptr[..], nblock, 0);
    assert origPtr != -1;  // assertion 1003
  }
}
