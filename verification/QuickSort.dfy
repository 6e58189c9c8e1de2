/** The three-way quicksort with its explicit stack of 100 segments. */
module QuickSort {
  import opened BucketSort

  const SMALL_THRESH := 10
  const STACK_SIZE := 100

  datatype Segment = Segment(lo: int, hi: int)

  function Size(s: Segment): int {
    s.hi - s.lo + 1
  }

  /** The largest segment the k-th stack entry can hold when the whole range has n positions. */
  function Bound(n: nat, k: nat): nat {
    if k == 0 then n else Bound(n, k - 1) / 2
  }

  ghost predicate Spans(x: Segment, p: int, q: int) {
    x.lo <= p && q <= x.hi
  }

  /** Some pending segment contains both positions. */
  ghost predicate Pending(segs: seq<Segment>, p: int, q: int) {
    exists s :: 0 <= s < |segs| && Spans(segs[s], p, q)
  }

  /** Segments lie in the range, do not overlap, and halve going up the stack. */
  ghost predicate Stacked(segs: seq<Segment>, loSt: int, hiSt: int)
    requires loSt <= hiSt
  {
    && (forall s :: 0 <= s < |segs| ==> Fits(segs[s], s, loSt, hiSt))
    && (forall s, t :: 0 <= s < t < |segs| ==> Apart(segs[s], segs[t]))
  }

  ghost predicate Fits(x: Segment, s: nat, loSt: int, hiSt: int)
    requires loSt <= hiSt
  {
    && loSt <= x.lo <= x.hi + 1 <= hiSt + 1
    && Size(x) <= Bound(hiSt - loSt + 1, s)
  }

  ghost predicate Apart(x: Segment, y: Segment) {
    x.hi < y.lo || y.hi < x.lo
  }

  /** Positions not pending together are in order. */
  ghost predicate OrderedBut(f: seq<int>, e: seq<int>, segs: seq<Segment>, loSt: int, hiSt: int)
    requires Indexes(f, e) && 0 <= loSt <= hiSt < |f|
  {
    forall p, q :: loSt <= p < q <= hiSt ==> e[f[p]] <= e[f[q]] || Pending(segs, p, q)
  }

  /** Within lo..hi only the positions of the listed segments are still unordered. */
  ghost predicate LeavesOnly(f: seq<int>, e: seq<int>, lo: int, hi: int, extra: seq<Segment>)
    requires Indexes(f, e) && 0 <= lo && hi < |f|
  {
    forall p, q :: lo <= p < q <= hi ==> e[f[p]] <= e[f[q]] || Pending(extra, p, q)
  }

  /** The work left: every pop shrinks it, also when two smaller segments are pushed back. */
  ghost function Work(segs: seq<Segment>): int {
    if segs == [] then 0 else Work(segs[..|segs|-1]) + 2 * Size(segs[|segs|-1]) + 1
  }

  lemma {:induction false} WorkNonNegative(segs: seq<Segment>)
    requires forall s :: 0 <= s < |segs| ==> Size(segs[s]) >= 0
    ensures Work(segs) >= 0
  {
    if segs != [] {
      WorkNonNegative(segs[..|segs|-1]);
    }
  }

  lemma WorkAppend(segs: seq<Segment>, x: Segment)
    ensures Work(segs + [x]) == Work(segs) + 2 * Size(x) + 1
  {
    assert (segs + [x])[..|segs|] == segs;
  }

  /** The stack after popping the top and pushing what is left of it. */
  lemma ReplaceTop(f: seq<int>, g: seq<int>, e: seq<int>, segs: seq<Segment>, extra: seq<Segment>, loSt: int, hiSt: int)
    requires segs != [] && Indexes(f, e) && Indexes(g, e) && 0 <= loSt <= hiSt < |f| && |f| == |g|
    requires Stacked(segs, loSt, hiSt) && OrderedBut(f, e, segs, loSt, hiSt)
    requires Rearranged(f, g, segs[|segs|-1].lo, segs[|segs|-1].hi)
    requires segs[|segs|-1].hi < |g| && 0 <= segs[|segs|-1].lo
    requires LeavesOnly(g, e, segs[|segs|-1].lo, segs[|segs|-1].hi, extra)
    ensures OrderedBut(g, e, segs[..|segs|-1] + extra, loSt, hiSt)
  {
    var k := |segs| - 1;
    var left := segs[..k] + extra;
    var lo, hi := segs[k].lo, segs[k].hi;
    forall p, q | loSt <= p < q <= hiSt && !(e[g[p]] <= e[g[q]])
      ensures Pending(left, p, q)
    {
      if lo <= p && q <= hi {
        var s :| 0 <= s < |extra| && Spans(extra[s], p, q);
        assert left[k + s] == extra[s];
      } else {
        var p', q' := p, q;
        if lo <= p <= hi {
          p' := SectionValue(f, g, lo, hi, p);
        }
        if lo <= q <= hi {
          q' := SectionValue(f, g, lo, hi, q);
        }
        assert f[p'] == g[p] && f[q'] == g[q] && p' < q';
        var s :| 0 <= s < |segs| && Spans(segs[s], p', q');
        assert s == k || Apart(segs[s], segs[k]);
        assert s < k && left[s] == segs[s];
      }
    }
  }

  /** What the popped segment leaves behind: its two outer parts, apart, the smaller on top. */
  ghost predicate Halves(top: Segment, big: Segment, small: Segment) {
    && 0 <= Size(small) <= Size(big) && Size(big) + Size(small) < Size(top)
    && top.lo <= big.lo && big.hi <= top.hi && top.lo <= small.lo && small.hi <= top.hi
    && Apart(big, small)
  }

  /** Pushing the two parts, the smaller on top, keeps the stack halving. */
  lemma PushHalves(segs: seq<Segment>, big: Segment, small: Segment, loSt: int, hiSt: int)
    requires segs != [] && loSt <= hiSt && Stacked(segs, loSt, hiSt)
    requires Halves(segs[|segs|-1], big, small)
    ensures Stacked(segs[..|segs|-1] + [big, small], loSt, hiSt)
  {
    var k := |segs| - 1;
    var next := segs[..k] + [big, small];
    assert Fits(segs[k], k, loSt, hiSt);
    assert Fits(big, k, loSt, hiSt) && Fits(small, k + 1, loSt, hiSt);
    forall s | 0 <= s < |next|
      ensures Fits(next[s], s, loSt, hiSt)
    {
      if s < k {
        assert next[s] == segs[s];
      }
    }
    forall s, t | 0 <= s < t < |next|
      ensures Apart(next[s], next[t])
    {
      if t < k {
        assert Apart(segs[s], segs[t]);
      } else if s < k {
        assert Apart(segs[s], segs[k]);
      }
    }
  }

  lemma PushShrinks(segs: seq<Segment>, big: Segment, small: Segment)
    requires segs != [] && Halves(segs[|segs|-1], big, small)
    ensures Work(segs[..|segs|-1] + [big, small]) < Work(segs)
  {
    var rest := segs[..|segs|-1];
    assert rest + [big, small] == rest + [big] + [small];
    WorkAppend(rest, big);
    WorkAppend(rest + [big], small);
  }

  lemma Pop(segs: seq<Segment>, loSt: int, hiSt: int)
    requires segs != [] && loSt <= hiSt && Stacked(segs, loSt, hiSt)
    ensures Stacked(segs[..|segs|-1] + [], loSt, hiSt)
    ensures 0 <= Work(segs[..|segs|-1] + []) < Work(segs)
    ensures loSt <= segs[|segs|-1].lo <= segs[|segs|-1].hi + 1 <= hiSt + 1
  {
    var rest := segs[..|segs|-1];
    assert rest + [] == rest;
    WorkNonNegative(rest);
  }

  lemma {:induction false} BoundMonotone(n: nat, m: nat, k: nat, j: nat)
    requires n <= m && j <= k
    ensures Bound(n, k) <= Bound(m, j)
    decreases k
  {
    if j < k {
      BoundMonotone(n, m, k - 1, j);
    } else if k > 0 {
      BoundMonotone(n, m, k - 1, k - 1);
    }
  }

  /** A segment large enough to split never sits high: the stack stays far below its 100 entries. */
  lemma StackIsShallow(segs: seq<Segment>, loSt: int, hiSt: int)
    requires segs != [] && loSt <= hiSt && Stacked(segs, loSt, hiSt) && hiSt - loSt < 900000
    requires Size(segs[|segs|-1]) > SMALL_THRESH
    ensures |segs| <= 17
  {
    assert Bound(900000, 8) == 3515;
    assert Bound(900000, 17) == 6;
    if |segs| >= 18 {
      assert Fits(segs[|segs|-1], |segs| - 1, loSt, hiSt);
      BoundMonotone(hiSt - loSt + 1, 900000, |segs| - 1, 17);
    }
  }

  /** The stack arrays hold exactly the pending segments. */
  ghost predicate Holds(stackLo: seq<int>, stackHi: seq<int>, segs: seq<Segment>) {
    && |segs| <= |stackLo| == |stackHi|
    && forall s :: 0 <= s < |segs| ==> stackLo[s] == segs[s].lo && stackHi[s] == segs[s].hi
  }

  /** The class chosen as pivot: pseudo-random among first, middle and last of the segment. */
  method ChoosePivot(fmap: array<int>, eclass: array<int>, lo: int, hi: int, r0: nat)
    returns (r: nat, med: int, ghost pivot: int)
    requires Indexes(fmap[..], eclass[..]) && 0 <= lo <= hi < fmap.Length
    ensures lo <= pivot <= hi && med == eclass[fmap[pivot]]
    ensures r == (r0 * 7621 + 1) % 32768
  {
    r := (r0 * 7621 + 1) % 32768;
    var r3 := r % 3;
    if r3 == 0 {
      med, pivot := eclass[fmap[lo]], lo;
    } else if r3 == 1 {
      med, pivot := eclass[fmap[(lo + hi) / 2]], (lo + hi) / 2;
    } else {
      med, pivot := eclass[fmap[hi]], hi;
    }
  }

  /** Sorts one popped segment, or splits it around a pivot class and says what is left to sort. */
  method SortOrSplit(fmap: array<int>, eclass: array<int>, lo: int, hi: int, r0: nat, ghost f0: seq<int>,
                     ghost loSt: int, ghost hiSt: int)
    returns (r: nat, push: bool, n: int, m: int)
    requires fmap != eclass && Indexes(fmap[..], eclass[..])
    requires 0 <= loSt <= lo <= hi + 1 <= hiSt + 1 <= fmap.Length
    requires Rearranged(f0, fmap[..], loSt, hiSt)
    modifies fmap
    ensures Rearranged(old(fmap[..]), fmap[..], lo, hi) && Rearranged(f0, fmap[..], loSt, hiSt)
    ensures Indexes(fmap[..], eclass[..])
    ensures !push ==> LeavesOnly(fmap[..], eclass[..], lo, hi, [])
    ensures push ==> LeavesOnly(fmap[..], eclass[..], lo, hi, [Segment(lo, n), Segment(m, hi)])
    ensures push ==> LeavesOnly(fmap[..], eclass[..], lo, hi, [Segment(m, hi), Segment(lo, n)])
    ensures push ==> hi - lo >= SMALL_THRESH && lo <= n + 1 < m <= hi + 1
  {
    r, push, n, m := r0, false, 0, 0;
    if hi - lo < SMALL_THRESH {
      FallbackSimpleSort(fmap, eclass, lo, hi);
      Widen(f0, old(fmap[..]), fmap[..], lo, hi, loSt, hiSt);
      return;
    }
    var med;
    ghost var pivot;
    r, med, pivot := ChoosePivot(fmap, eclass, lo, hi, r0);
    var done;
    done, n, m := Split(fmap, eclass, lo, hi, med, pivot);
    hide Rearranged;
    Widen(f0, old(fmap[..]), fmap[..], lo, hi, loSt, hiSt);
    if !done {
      push := true;
      PartedLeaves(fmap[..], eclass[..], lo, n, m, hi, med);
    }
  }

  /** Pushes two segments over the popped top entry. */
  method PushTwo(stackLo: array<int>, stackHi: array<int>, sp0: nat, ghost segs: seq<Segment>,
                 lo1: int, hi1: int, lo2: int, hi2: int) returns (sp: nat)
    requires stackLo != stackHi && Holds(stackLo[..], stackHi[..], segs)
    requires |segs| == sp0 + 1 && sp0 + 2 <= stackLo.Length
    modifies stackLo, stackHi
    ensures sp == sp0 + 2
    ensures Holds(stackLo[..], stackHi[..], segs[..sp0] + [Segment(lo1, hi1), Segment(lo2, hi2)])
  {
    sp := sp0;
    stackLo[sp], stackHi[sp] := lo1, hi1;
    sp := sp + 1;
    stackLo[sp], stackHi[sp] := lo2, hi2;
    sp := sp + 1;
  }

  lemma TopHeld(stackLo: seq<int>, stackHi: seq<int>, segs: seq<Segment>)
    requires Holds(stackLo, stackHi, segs) && segs != []
    ensures |segs| <= |stackLo| == |stackHi|
    ensures segs[|segs|-1] == Segment(stackLo[|segs|-1], stackHi[|segs|-1])
    ensures Holds(stackLo, stackHi, segs[..|segs|-1] + [])
  {
  }

  method FallbackQSort3(fmap: array<int>, eclass: array<int>, loSt: int, hiSt: int)
    requires fmap != eclass && Indexes(fmap[..], eclass[..])
    requires 0 <= loSt <= hiSt < fmap.Length && hiSt - loSt < 900000
    modifies fmap
    ensures Rearranged(old(fmap[..]), fmap[..], loSt, hiSt)
    ensures Indexes(fmap[..], eclass[..])
    ensures SortedBy(fmap[..], eclass[..], loSt, hiSt)
  {
    var stackLo, stackHi := new int[STACK_SIZE], new int[STACK_SIZE];
    var r := 0;
    var sp := 0;
    stackLo[sp], stackHi[sp] := loSt, hiSt;
    sp := sp + 1;
    ghost var f0: seq<int>, segs := fmap[..], [Segment(loSt, hiSt)];
    FirstSegment(f0, eclass[..], loSt, hiSt);
    RearrangedRefl(f0, loSt, hiSt);
    assert Holds(stackLo[..], stackHi[..], segs);
    hide Rearranged, OrderedBut, Stacked, SortedBy, LeavesOnly, Work, Halves, Holds;
    while sp > 0
      invariant sp == |segs| <= 18
      invariant Holds(stackLo[..], stackHi[..], segs)
      invariant Indexes(fmap[..], eclass[..]) && Rearranged(f0, fmap[..], loSt, hiSt)
      invariant Stacked(segs, loSt, hiSt) && OrderedBut(fmap[..], eclass[..], segs, loSt, hiSt)
      decreases Work(segs)
    {
      assert sp < STACK_SIZE - 1;  // assertion 1004
      Pop(segs, loSt, hiSt);
      TopHeld(stackLo[..], stackHi[..], segs);
      sp := sp - 1;
      var lo, hi := stackLo[sp], stackHi[sp];
      ghost var f := fmap[..];
      var push, n, m;
      r, push, n, m := SortOrSplit(fmap, eclass, lo, hi, r, f0, loSt, hiSt);
      ghost var extra := if !push then [] else if n - lo > hi - m then [Segment(lo, n), Segment(m, hi)]
                         else [Segment(m, hi), Segment(lo, n)];
      ReplaceTop(f, fmap[..], eclass[..], segs, extra, loSt, hiSt);
      if push {
        StackIsShallow(segs, loSt, hiSt);
        SplitHalves(lo, n, m, hi);
        PushHalves(segs, extra[0], extra[1], loSt, hiSt);
        PushShrinks(segs, extra[0], extra[1]);
        if n - lo > hi - m {
          sp := PushTwo(stackLo, stackHi, sp, segs, lo, n, m, hi);
        } else {
          sp := PushTwo(stackLo, stackHi, sp, segs, m, hi, lo, n);
        }
      }
      segs := segs[..|segs|-1] + extra;
    }
    assert segs == [];
    AllOrdered(fmap[..], eclass[..], loSt, hiSt);
  }

  lemma SplitHalves(lo: int, n: int, m: int, hi: int)
    requires lo <= n + 1 < m <= hi + 1
    ensures n - lo > hi - m ==> Halves(Segment(lo, hi), Segment(lo, n), Segment(m, hi))
    ensures n - lo <= hi - m ==> Halves(Segment(lo, hi), Segment(m, hi), Segment(lo, n))
  {
  }

  lemma FirstSegment(f: seq<int>, e: seq<int>, loSt: int, hiSt: int)
    requires Indexes(f, e) && 0 <= loSt <= hiSt < |f|
    ensures Stacked([Segment(loSt, hiSt)], loSt, hiSt)
    ensures OrderedBut(f, e, [Segment(loSt, hiSt)], loSt, hiSt)
  {
    var segs := [Segment(loSt, hiSt)];
    forall p, q | loSt <= p < q <= hiSt
      ensures Pending(segs, p, q)
    {
      assert Spans(segs[0], p, q);
    }
  }

  lemma AllOrdered(f: seq<int>, e: seq<int>, loSt: int, hiSt: int)
    requires Indexes(f, e) && 0 <= loSt <= hiSt < |f|
    requires OrderedBut(f, e, [], loSt, hiSt)
    ensures SortedBy(f, e, loSt, hiSt)
  {
  }

  lemma Widen(f0: seq<int>, f: seq<int>, g: seq<int>, lo: int, hi: int, loSt: int, hiSt: int)
    requires Rearranged(f0, f, loSt, hiSt) && Rearranged(f, g, lo, hi)
    requires loSt <= lo && hi <= hiSt
    ensures Rearranged(f0, g, loSt, hiSt)
  {
  }

  lemma PartedLeaves(f: seq<int>, e: seq<int>, lo: int, n: int, m: int, hi: int, med: int)
    requires Indexes(f, e) && Parted(f, e, lo, n, m, hi, med)
    ensures 0 <= lo <= n + 1 < m <= hi + 1 <= |f|
    ensures LeavesOnly(f, e, lo, hi, [Segment(lo, n), Segment(m, hi)])
    ensures LeavesOnly(f, e, lo, hi, [Segment(m, hi), Segment(lo, n)])
  {
    var a, b := [Segment(lo, n), Segment(m, hi)], [Segment(m, hi), Segment(lo, n)];
    forall p, q | lo <= p < q <= hi && !(e[f[p]] <= e[f[q]])
      ensures Pending(a, p, q) && Pending(b, p, q)
    {
      if q <= n {
        assert Spans(a[0], p, q) && Spans(b[1], p, q);
      } else {
        assert p >= m;
        assert Spans(a[1], p, q) && Spans(b[0], p, q);
      }
    }
  }
}
