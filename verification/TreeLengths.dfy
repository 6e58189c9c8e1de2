/** gen_bitlen: code lengths from a Huffman tree, limited to the greatest length allowed, and the block size they
    lead to. */
module TreeLengths {
  import opened Counting
  import opened Bits
  import opened SortedCodes
  import opened DeflateCodes
  import opened DeflateTree
  import opened DepthClamp
  import Canonical
  import HuffmanForest

  const HEAP_SIZE := 573

  /** What is fixed for a kind of tree: the lengths of the static tree if there is one, extra bits, the first symbol
      that has any, the number of symbols and the greatest length. */
  datatype StaticDesc = StaticDesc(staticLen: seq<int>, extraBits: seq<int>, extraBase: nat, elems: nat, maxLength: nat)

  ghost predicate IsDesc(desc: StaticDesc) {
    && 3 <= desc.elems <= 286 && 1 <= desc.maxLength <= MAXBITS && desc.elems <= Pow2(desc.maxLength)
    && desc.elems <= desc.extraBase + |desc.extraBits| && (desc.staticLen == [] || desc.elems <= |desc.staticLen|)
    && (forall n :: 0 <= n < 3 && n < desc.elems ==> ExtraOf(desc, n) == 0)
  }

  function ExtraOf(desc: StaticDesc, n: nat): int
    requires n < desc.elems <= desc.extraBase + |desc.extraBits|
  {
    if n >= desc.extraBase then desc.extraBits[n - desc.extraBase] else 0
  }

  /** Bits for a symbol that occurs f times. */
  function Share(f: int, len: int, desc: StaticDesc, n: nat): int
    requires n < desc.elems <= desc.extraBase + |desc.extraBits|
  {
    f * (len + ExtraOf(desc, n))
  }

  /** What the static tree would need, if there is one. */
  function StaticShare(f: int, desc: StaticDesc, n: nat): int
    requires n < desc.elems <= desc.extraBase + |desc.extraBits|
    requires (desc.staticLen == [] || desc.elems <= |desc.staticLen|)
  {
    if desc.staticLen == [] then 0 else Share(f, desc.staticLen[n], desc, n)
  }

  /** Bits for the first m symbols with the given frequencies: code and extra bits. */
  function Cost(freq: seq<int>, lens: seq<int>, desc: StaticDesc, m: nat): int
    requires m <= |freq| && m <= |lens| && m <= desc.elems <= desc.extraBase + |desc.extraBits|
  {
    if m == 0 then 0 else Cost(freq, lens, desc, m - 1) + Share(freq[m - 1], lens[m - 1], desc, m - 1)
  }

  /** Bits for those of the first m symbols that have a length. */
  function CostSoFar(freq: seq<int>, s: seq<int>, lens: seq<int>, desc: StaticDesc, m: nat): int
    requires m <= |freq| && m <= |s| && m <= |lens| && m <= desc.elems <= desc.extraBase + |desc.extraBits|
  {
    if m == 0 then 0
    else
      CostSoFar(freq, s, lens, desc, m - 1) +
      (if s[m - 1] == 0 then 0 else Share(freq[m - 1], lens[m - 1], desc, m - 1))
  }

  lemma {:induction false} CostFrame(freq: seq<int>, s: seq<int>, t: seq<int>, lens: seq<int>, kens: seq<int>,
                                     desc: StaticDesc, m: nat)
    requires m <= |freq| && m <= |s| && m <= |t| && m <= |lens| && m <= |kens|
    requires m <= desc.elems <= desc.extraBase + |desc.extraBits|
    requires forall n :: 0 <= n < m ==> (s[n] == 0 <==> t[n] == 0) && lens[n] == kens[n]
    ensures CostSoFar(freq, s, lens, desc, m) == CostSoFar(freq, t, kens, desc, m)
  {
    if m > 0 {
      CostFrame(freq, s, t, lens, kens, desc, m - 1);
    }
  }

  /** A symbol gets its length. */
  lemma {:induction false} CostGrows(freq: seq<int>, s: seq<int>, lens: seq<int>, desc: StaticDesc, m: nat, n: nat,
                                     b: int)
    requires m <= |freq| && m <= |s| && m <= |lens| && m <= desc.elems <= desc.extraBase + |desc.extraBits|
    requires n < m && s[n] == 0 && b != 0
    ensures CostSoFar(freq, s[n := b], lens[n := b], desc, m) ==
      CostSoFar(freq, s, lens, desc, m) + Share(freq[n], b, desc, n)
    ensures CostSoFar(freq, s[n := b], lens, desc, m) ==
      CostSoFar(freq, s, lens, desc, m) + Share(freq[n], lens[n], desc, n)
  {
    if n < m - 1 {
      CostGrows(freq, s, lens, desc, m - 1, n, b);
    } else {
      CostFrame(freq, s, s[n := b], lens, lens[n := b], desc, m - 1);
      CostFrame(freq, s, s[n := b], lens, lens, desc, m - 1);
    }
  }

  /** A symbol's length changes. */
  lemma {:induction false} CostMoves(freq: seq<int>, lens: seq<int>, desc: StaticDesc, m: nat, n: nat, b: int)
    requires m <= |freq| && m <= |lens| && m <= desc.elems <= desc.extraBase + |desc.extraBits| && n < m
    ensures Cost(freq, lens[n := b], desc, m) == Cost(freq, lens, desc, m) + (b - lens[n]) * freq[n]
  {
    if n < m - 1 {
      CostMoves(freq, lens, desc, m - 1, n, b);
    } else {
      CostSame(freq, lens, lens[n := b], desc, m - 1);
      Moved(freq[n], lens[n], b, ExtraOf(desc, n));
    }
  }

  lemma {:induction false} CostSame(freq: seq<int>, lens: seq<int>, kens: seq<int>, desc: StaticDesc, m: nat)
    requires m <= |freq| && m <= |lens| && m <= |kens| && m <= desc.elems <= desc.extraBase + |desc.extraBits|
    requires forall n :: 0 <= n < m ==> lens[n] == kens[n]
    ensures Cost(freq, lens, desc, m) == Cost(freq, kens, desc, m)
  {
    if m > 0 {
      CostSame(freq, lens, kens, desc, m - 1);
    }
  }

  lemma Moved(f: int, l: int, b: int, x: int)
    ensures f * (b + x) == f * (l + x) + (b - l) * f
  {
  }

  /** Symbols without a length have no frequency: nothing is left out. */
  lemma {:induction false} CostWhole(freq: seq<int>, s: seq<int>, lens: seq<int>, desc: StaticDesc, m: nat)
    requires m <= |freq| && m <= |s| && m <= |lens| && m <= desc.elems <= desc.extraBase + |desc.extraBits|
    requires forall n :: 0 <= n < m && s[n] == 0 ==> freq[n] == 0
    ensures CostSoFar(freq, s, lens, desc, m) == Cost(freq, lens, desc, m)
  {
    if m > 0 {
      CostWhole(freq, s, lens, desc, m - 1);
    }
  }

  lemma {:induction false} CostNone(freq: seq<int>, s: seq<int>, lens: seq<int>, desc: StaticDesc, m: nat)
    requires m <= |freq| && m <= |s| && m <= |lens| && m <= desc.elems <= desc.extraBase + |desc.extraBits|
    requires forall n :: 0 <= n < m ==> s[n] == 0
    ensures CostSoFar(freq, s, lens, desc, m) == 0
  {
    if m > 0 {
      CostNone(freq, s, lens, desc, m - 1);
    }
  }

  /** A symbol occurs once more. */
  lemma {:induction false} CostRises(f: seq<int>, lens: seq<int>, desc: StaticDesc, m: nat, n: nat)
    requires n < m <= |f| && m <= |lens| && m <= desc.elems <= desc.extraBase + |desc.extraBits|
    ensures Cost(f[n := f[n] + 1], lens, desc, m) == Cost(f, lens, desc, m) + lens[n] + ExtraOf(desc, n)
  {
    if n < m - 1 {
      CostRises(f, lens, desc, m - 1, n);
    } else {
      CostOther(f, f[n := f[n] + 1], lens, desc, m - 1);
      OnceMore(f[n], lens[n] + ExtraOf(desc, n));
    }
  }

  lemma OnceMore(f: int, w: int)
    ensures (f + 1) * w == f * w + w
  {
  }

  lemma {:induction false} CostOther(f: seq<int>, g: seq<int>, lens: seq<int>, desc: StaticDesc, m: nat)
    requires m <= |f| && m <= |g| && m <= |lens| && m <= desc.elems <= desc.extraBase + |desc.extraBits|
    requires forall n :: 0 <= n < m ==> f[n] == g[n]
    ensures Cost(f, lens, desc, m) == Cost(g, lens, desc, m)
  {
    if m > 0 {
      CostOther(f, g, lens, desc, m - 1);
    }
  }

  function StaticCost(freq: seq<int>, desc: StaticDesc): int
    requires desc.elems <= |freq| && desc.elems <= desc.extraBase + |desc.extraBits|
    requires desc.staticLen == [] || desc.elems <= |desc.staticLen|
  {
    if desc.staticLen == [] then 0 else Cost(freq, desc.staticLen, desc, desc.elems)
  }

  function StaticSoFar(freq: seq<int>, s: seq<int>, desc: StaticDesc): int
    requires desc.elems <= |freq| && desc.elems <= |s| && desc.elems <= desc.extraBase + |desc.extraBits|
    requires desc.staticLen == [] || desc.elems <= |desc.staticLen|
  {
    if desc.staticLen == [] then 0 else CostSoFar(freq, s, desc.staticLen, desc, desc.elems)
  }

  // ---------- first pass ----------

  /** dl still holds the fathers of the nodes from the i-th on; those before have their depths already. */
  ghost predicate HalfWay(dl: seq<int>, dl0: seq<int>, list: seq<int>, dads: seq<int>, z: seq<int>, i: nat) {
    && i <= |list| == |dads| && i <= |z| && |dl| == |dl0|
    && (forall q :: 0 <= q < |list| ==> 0 <= list[q] < |dl|)
    && (forall q :: 0 <= q < i ==> dl[list[q]] == z[q])
    && (forall q :: 1 <= q < |list| && i <= q ==> dl[list[q]] == dads[q])
    && (forall n :: 0 <= n < |dl| && n !in list ==> dl[n] == dl0[n])
  }

  /** The next node gets its value. */
  lemma HalfWaySet(dl: seq<int>, dl0: seq<int>, list: seq<int>, dads: seq<int>, z: seq<int>, i: nat, b: int)
    requires HalfWay(dl, dl0, list, dads, z, i) && i < |list| && |z| == i && 0 <= list[i] < |dl|
    requires forall q :: 0 <= q < |list| ==> (list[q] == list[i] <==> q == i)
    ensures HalfWay(dl[list[i] := b], dl0, list, dads, z + [b], i + 1)
  {
  }

  lemma HalfWayAt(dl: seq<int>, dl0: seq<int>, list: seq<int>, dads: seq<int>, z: seq<int>, i: nat, q: nat)
    requires HalfWay(dl, dl0, list, dads, z, i) && 1 <= i < |list| && q < i
    ensures 0 <= list[i] < |dl| && 0 <= list[q] < |dl| && |dads| == |list|
    ensures dl[list[i]] == dads[i] && q < |z| && dl[list[q]] == z[q]
  {
  }

  lemma HalfWayStep(dl: seq<int>, dl0: seq<int>, list: seq<int>, dads: seq<int>, leaves: set<int>, elems: int,
                    z: seq<int>, i: nat, b: int)
    requires HalfWay(dl, dl0, list, dads, z, i) && Grown(list, dads, leaves, elems) && 1 <= i < |list| && |z| == i
    ensures |dads| == |list| && dads[i] in list[..i] && 0 <= list[i] < |dl| && dl[list[i]] == dads[i]
    ensures 0 <= dads[i] < |dl| && dl[dads[i]] == z[DadAt(list, dads, i)]
    ensures HalfWay(dl[list[i] := b], dl0, list, dads, z + [b], i + 1)
  {
    hide Grown, HalfWay;
    InList(list, dads, leaves, elems, i);
    HalfWayAt(dl, dl0, list, dads, z, i, DadAt(list, dads, i));
    forall q | 0 <= q < |list|
      ensures list[q] == list[i] <==> q == i
    {
      Apart(list, dads, leaves, elems, q, i);
    }
    HalfWaySet(dl, dl0, list, dads, z, i, b);
  }

  /** One node gets its depth, a leaf is also counted. */
  method PassNode(n: nat, fc: array<int>, dl: array<int>, blCount: array<int>, maxCode: int, desc: StaticDesc,
                  overflow0: int, optLen0: int, staticLen0: int) returns (overflow: int, optLen: int, staticLen: int)
    requires dl != fc && dl != blCount && blCount != fc && n < dl.Length && n < fc.Length && 0 <= dl[n] < dl.Length
    requires 0 <= dl[dl[n]] && blCount.Length == MAXBITS + 1 && desc.maxLength <= MAXBITS
    requires desc.elems <= desc.extraBase + |desc.extraBits| && (desc.staticLen == [] || desc.elems <= |desc.staticLen|)
    requires n <= maxCode <==> n < desc.elems
    modifies dl, blCount
    ensures var d := old(dl[dl[n]]); var b := Son(d, desc.maxLength); var leaf := n < desc.elems;
      && dl[..] == old(dl[..])[n := b]
      && overflow == overflow0 + (if d + 1 > desc.maxLength then 1 else 0)
      && blCount[..] == (if leaf then old(blCount[..])[b := old(blCount[b]) + 1] else old(blCount[..]))
      && optLen == optLen0 + (if leaf then Share(fc[n], b, desc, n) else 0)
      && staticLen == staticLen0 + (if leaf then StaticShare(fc[n], desc, n) else 0)
  {
    overflow, optLen, staticLen := overflow0, optLen0, staticLen0;
    var bits := dl[dl[n]] + 1;
    if bits > desc.maxLength {
      bits := desc.maxLength;
      overflow := overflow + 1;
    }
    dl[n] := bits;
    if n > maxCode {
      return;
    }
    blCount[bits] := blCount[bits] + 1;
    var xbits := 0;
    if n >= desc.extraBase {
      xbits := desc.extraBits[n - desc.extraBase];
    }
    var f := fc[n];
    optLen := optLen + f * (bits + xbits);
    if desc.staticLen != [] {
      staticLen := staticLen + f * (desc.staticLen[n] + xbits);
    }
  }

  lemma TallySize(bl: seq<int>, freq: seq<int>, s: seq<int>, desc: StaticDesc, optLen: int, staticLen: int, found: nat)
    requires Tallied(bl, freq, s, desc, optLen, staticLen, found)
    ensures |bl| == MAXBITS + 1 && |s| == desc.elems <= |freq|
  {
  }

  /** Every node but the root has its father's number. */
  ghost predicate HoldsDads(dl: seq<int>, list: seq<int>, dads: seq<int>) {
    |list| == |dads| && forall i :: 1 <= i < |list| ==> 0 <= list[i] < |dl| && dl[list[i]] == dads[i]
  }

  /** The number of leaves among the first i nodes. */
  function LeavesIn(list: seq<int>, elems: nat, i: nat): (r: nat)
    requires i <= |list|
  {
    if i == 0 then 0 else LeavesIn(list, elems, i - 1) + (if list[i - 1] < elems then 1 else 0)
  }

  lemma NextLeaf(list: seq<int>, elems: nat, i: nat)
    requires i < |list|
    ensures LeavesIn(list, elems, i + 1) == LeavesIn(list, elems, i) + (if list[i] < elems then 1 else 0)
    ensures LeavesIn(list, elems, 0) == 0
  {
  }

  lemma RootNoLeaf(list: seq<int>, dads: seq<int>, leaves: set<int>, elems: nat)
    requires Grown(list, dads, leaves, elems)
    ensures list[0] >= elems
  {
  }

  /** Nodes index the tree, and those up to maxCode are the leaves. */
  ghost predicate NodesFit(list: seq<int>, size: nat, size': nat, maxCode: int, elems: nat) {
    forall i :: 0 <= i < |list| ==> 0 <= list[i] < size && list[i] < size' && (list[i] <= maxCode <==> list[i] < elems)
  }

  lemma NodeFits(list: seq<int>, size: nat, size': nat, maxCode: int, elems: nat, i: nat)
    requires NodesFit(list, size, size', maxCode, elems) && i < |list|
    ensures 0 <= list[i] < size && list[i] < size' && (list[i] <= maxCode <==> list[i] < elems)
  {
  }

  /** All lengths from the tree, cut off at the greatest one, with their counts and what they cost. */
  method FirstPass(heap: array<int>, heapMax: nat, fc: array<int>, dl: array<int>, blCount: array<int>, maxCode: int,
                   desc: StaticDesc, optLen0: int, staticLen0: int, ghost list: seq<int>, ghost dads: seq<int>,
                   ghost leaves: set<int>)
    returns (overflow: int, optLen: int, staticLen: int, ghost z: seq<int>, ghost excess: nat)
    requires dl != heap && dl != fc && dl != blCount && blCount != heap && blCount != fc
    requires IsDesc(desc) && heap.Length == HEAP_SIZE && blCount.Length == MAXBITS + 1
    requires 0 <= heapMax <= HEAP_SIZE && heap[heapMax..] == list && Grown(list, dads, leaves, desc.elems)
    requires desc.elems <= dl.Length && desc.elems <= fc.Length
    requires NodesFit(list, dl.Length, fc.Length, maxCode, desc.elems)
    requires HoldsDads(dl[..], list, dads)
    requires forall n :: 0 <= n < desc.elems && n !in leaves ==> dl[n] == 0
    modifies dl, blCount
    ensures |z| == |list| && Clamped(list, dads, leaves, desc.elems, desc.maxLength, z, |list|)
    ensures HalfWay(dl[..], old(dl[..]), list, dads, z, |list|)
    ensures UsedKraft(dl[..desc.elems], desc.maxLength) == Pow2(desc.maxLength) + excess && overflow == 2 * excess
    ensures forall b :: 1 <= b <= MAXBITS ==> blCount[b] == Count(dl[..desc.elems], b)
    ensures blCount[0] == 0 && blCount[desc.maxLength] >= excess
    ensures CountedAll(blCount[..], desc.maxLength) == LeavesIn(list, desc.elems, |list|)
    ensures forall n :: 0 <= n < desc.elems ==> if n in leaves then 1 <= dl[n] <= desc.maxLength else dl[n] == 0
    ensures optLen == optLen0 + CostSoFar(fc[..], dl[..desc.elems], dl[..desc.elems], desc, desc.elems)
    ensures staticLen == staticLen0 + StaticSoFar(fc[..], dl[..desc.elems], desc)
  {
    hide Grown, Balance, Clamped, Count, UsedKraft, Pow2, CostSoFar, StaticSoFar, Tallied, Share, LeavesIn, CountedAll,
         StaticShare, HalfWay, LeafLens, NodesFit, HoldsDads, IsDesc;
    DescParts(desc);
    ghost var dl0: seq<int> := dl[..];
    ClearCounts(blCount);
    ghost var s: seq<int> := seq(desc.elems, n => 0);
    GrownSize(list, dads, leaves, desc.elems);
    NodeFits(list, dl.Length, fc.Length, maxCode, desc.elems, 0);
    assert heap[heapMax] == list[0];
    dl[heap[heapMax]] := 0;
    StartPass(dl0, list, dads, leaves, desc.elems, fc.Length, maxCode);
    assert dl[..] == dl0[list[0] := 0];
    BalanceStart(list, dads, leaves, desc.elems, desc.maxLength, s);
    NextLeaf(list, desc.elems, 0);
    RootNoLeaf(list, dads, leaves, desc.elems);
    StartCost(blCount[..], fc[..], s, desc);
    ghost var opt, stat;
    overflow, optLen, staticLen, z, s, excess, opt, stat :=
      PassRest(heap, heapMax, fc, dl, blCount, maxCode, desc, optLen0, staticLen0, list, dads, leaves, dl0, s);
    BalanceEnd(list, dads, leaves, desc.elems, desc.maxLength, z, s, overflow, excess);
    EndTally(blCount[..], fc[..], s, desc, opt, stat, LeavesIn(list, desc.elems, |list|));
    EndPass(dl[..], dl0, list, dads, leaves, desc.elems, desc.maxLength, z, s, overflow, excess);
  }

  /** The nodes behind the root. */
  method PassRest(heap: array<int>, heapMax: nat, fc: array<int>, dl: array<int>, blCount: array<int>, maxCode: int,
                  desc: StaticDesc, optLen0: int, staticLen0: int, ghost list: seq<int>, ghost dads: seq<int>,
                  ghost leaves: set<int>, ghost dl0: seq<int>, ghost s0: seq<int>)
    returns (overflow: int, optLen: int, staticLen: int, ghost z: seq<int>, ghost s: seq<int>, ghost excess: nat,
        ghost opt: int, ghost stat: int)
    requires dl != heap && dl != fc && dl != blCount && blCount != heap && blCount != fc
    requires IsDesc(desc) && heap.Length == HEAP_SIZE && blCount.Length == MAXBITS + 1
    requires 0 <= heapMax < HEAP_SIZE && heap[heapMax..] == list && Grown(list, dads, leaves, desc.elems)
    requires desc.elems <= dl.Length && desc.elems <= fc.Length
    requires NodesFit(list, dl.Length, fc.Length, maxCode, desc.elems)
    requires Balance(list, dads, leaves, desc.elems, desc.maxLength, [0], 1, s0, 0, 0)
    requires HalfWay(dl[..], dl0, list, dads, [0], 1)
    requires Tallied(blCount[..], fc[..], s0, desc, 0, 0, LeavesIn(list, desc.elems, 1)) && |s0| == desc.elems
    requires forall n :: 0 <= n < desc.elems ==> s0[n] == 0
    modifies dl, blCount
    ensures Balance(list, dads, leaves, desc.elems, desc.maxLength, z, |list|, s, overflow, excess)
    ensures HalfWay(dl[..], dl0, list, dads, z, |list|) && |z| == |list| && |s| == desc.elems
    ensures Tallied(blCount[..], fc[..], s, desc, opt, stat, LeavesIn(list, desc.elems, |list|))
    ensures optLen == optLen0 + opt && staticLen == staticLen0 + stat
    ensures forall n :: 0 <= n < desc.elems && s[n] != 0 ==> n in leaves && 1 <= s[n] <= desc.maxLength
  {
    hide Grown, Balance, Clamped, Count, UsedKraft, Pow2, CostSoFar, StaticSoFar, Tallied, Share, LeavesIn, CountedAll,
         StaticShare, HalfWay, LeafLens, NodesFit, HoldsDads, IsDesc;
    DescParts(desc);
    GrownSize(list, dads, leaves, desc.elems);
    overflow, optLen, staticLen, excess := 0, optLen0, staticLen0, 0;
    z, s, opt, stat := [0], s0, 0, 0;
    var h := heapMax + 1;
    while h < HEAP_SIZE
      invariant heapMax + 1 <= h <= HEAP_SIZE && heap[heapMax..] == list
      invariant Balance(list, dads, leaves, desc.elems, desc.maxLength, z, h - heapMax, s, overflow, excess)
      invariant HalfWay(dl[..], dl0, list, dads, z, h - heapMax) && |z| == h - heapMax && |s| == desc.elems
      invariant Tallied(blCount[..], fc[..], s, desc, opt, stat, LeavesIn(list, desc.elems, h - heapMax))
      invariant optLen == optLen0 + opt && staticLen == staticLen0 + stat
      invariant forall n :: 0 <= n < desc.elems && s[n] != 0 ==> n in leaves && 1 <= s[n] <= desc.maxLength
      modifies dl, blCount
    {
      ghost var i := h - heapMax;
      assert heap[h] == list[i];
      var n := heap[h];
      NodeFits(list, dl.Length, fc.Length, maxCode, desc.elems, i);
      ghost var d: seq<int>, bl: seq<int> := dl[..], blCount[..];
      InList(list, dads, leaves, desc.elems, i);
      ghost var bits := Son(z[DadAt(list, dads, i)], desc.maxLength);
      HalfWayStep(d, dl0, list, dads, leaves, desc.elems, z, i, bits);
      excess := BalanceStep(list, dads, leaves, desc.elems, desc.maxLength, z, i, s, overflow, excess);
      NextLeaf(list, desc.elems, i);
      TallySize(bl, fc[..], s, desc, opt, stat, LeavesIn(list, desc.elems, h - heapMax));
      if n < desc.elems {
        LeafHere(list, dads, leaves, desc.elems, i);
        LeafTally(bl, fc[..], s, desc, opt, stat, LeavesIn(list, desc.elems, i), n, bits);
        s := s[n := bits];
        opt, stat := opt + Share(fc[n], bits, desc, n), stat + StaticShare(fc[n], desc, n);
      }
      overflow, optLen, staticLen := PassNode(n, fc, dl, blCount, maxCode, desc, overflow, optLen, staticLen);
      z := z + [bits];
      h := h + 1;
    }
  }

  method ClearCounts(blCount: array<int>)
    requires blCount.Length == MAXBITS + 1
    modifies blCount
    ensures forall b :: 0 <= b <= MAXBITS ==> blCount[b] == 0
  {
    var bits := 0;
    while bits <= MAXBITS
      invariant 0 <= bits <= MAXBITS + 1 && forall b :: 0 <= b < bits ==> blCount[b] == 0
    {
      blCount[bits] := 0;
      bits := bits + 1;
    }
  }

  /** Counts and costs of the leaves reached so far. */
  ghost predicate Tallied(bl: seq<int>, freq: seq<int>, s: seq<int>, desc: StaticDesc, optLen: int, staticLen: int,
                          found: nat) {
    && |bl| == MAXBITS + 1 && 1 <= desc.maxLength <= MAXBITS && CountedAll(bl, desc.maxLength) == found &&
       desc.elems <= |freq| && desc.elems == |s| && desc.elems <= desc.extraBase + |desc.extraBits|
    && (desc.staticLen == [] || desc.elems <= |desc.staticLen|)
    && bl[0] == 0 && (forall b :: 1 <= b <= MAXBITS ==> bl[b] == Count(s, b))
    && optLen == CostSoFar(freq, s, s, desc, desc.elems) && staticLen == StaticSoFar(freq, s, desc)
  }

  /** What one more leaf adds. */
  lemma LeafTally(bl: seq<int>, freq: seq<int>, s: seq<int>, desc: StaticDesc, optLen: int, staticLen: int, found: nat,
                  n: nat, bits: nat)
    requires Tallied(bl, freq, s, desc, optLen, staticLen, found) && n < desc.elems && s[n] == 0
    requires 1 <= bits <= desc.maxLength
    ensures Tallied(bl[bits := bl[bits] + 1], freq, s[n := bits], desc, optLen + Share(freq[n], bits, desc, n),
                    staticLen + StaticShare(freq[n], desc, n), found + 1)
  {
    hide Count, CostSoFar, CountedKraft;
    CountedSet(bl, bits, bl[bits] + 1, desc.maxLength);
    forall b | 1 <= b
      ensures Count(s[n := bits], b) == Count(s, b) + (if bits == b then 1 else 0)
    {
      HuffmanForest.CountUpdate(s, n, bits, b);
    }
    CostGrows(freq, s, s, desc, desc.elems, n, bits);
    if desc.staticLen != [] {
      CostGrows(freq, s, desc.staticLen, desc, desc.elems, n, bits);
    }
  }

  lemma DescParts(desc: StaticDesc)
    requires IsDesc(desc)
    ensures 3 <= desc.elems && 1 <= desc.maxLength <= MAXBITS && desc.elems <= Pow2(desc.maxLength)
    ensures desc.elems <= desc.extraBase + |desc.extraBits| && (desc.staticLen == [] || desc.elems <= |desc.staticLen|)
  {
  }

  lemma GrownSize(list: seq<int>, dads: seq<int>, leaves: set<int>, elems: int)
    requires Grown(list, dads, leaves, elems)
    ensures |list| == |dads| >= 3
  {
  }

  lemma LeafHere(list: seq<int>, dads: seq<int>, leaves: set<int>, elems: int, i: nat)
    requires Grown(list, dads, leaves, elems) && i < |list| && list[i] < elems
    ensures list[i] in leaves
  {
  }

  lemma StartPass(dl: seq<int>, list: seq<int>, dads: seq<int>, leaves: set<int>, elems: nat, size: nat, maxCode: int)
    requires Grown(list, dads, leaves, elems) && NodesFit(list, |dl|, size, maxCode, elems)
    requires HoldsDads(dl, list, dads)
    ensures HalfWay(dl[list[0] := 0], dl, list, dads, [0], 1)
  {
    forall q | 1 <= q < |list|
      ensures list[q] != list[0]
    {
      Apart(list, dads, leaves, elems, q, 0);
    }
  }

  lemma StartCost(bl: seq<int>, freq: seq<int>, s: seq<int>, desc: StaticDesc)
    requires desc.elems <= |freq| && desc.elems == |s| && desc.elems <= desc.extraBase + |desc.extraBits|
    requires desc.staticLen == [] || desc.elems <= |desc.staticLen|
    requires forall n :: 0 <= n < desc.elems ==> s[n] == 0
    requires |bl| == MAXBITS + 1 && (forall b :: 0 <= b <= MAXBITS ==> bl[b] == 0) && 1 <= desc.maxLength <= MAXBITS
    ensures Tallied(bl, freq, s, desc, 0, 0, 0)
  {
    OnlyAt(bl, desc.maxLength);
    CostNone(freq, s, s, desc, desc.elems);
    if desc.staticLen != [] {
      CostNone(freq, s, desc.staticLen, desc, desc.elems);
    }
    forall b | b != 0
      ensures Count(s, b) == 0
    {
      Canonical.NoCount(s, b);
    }
  }

  lemma EndTally(bl: seq<int>, freq: seq<int>, s: seq<int>, desc: StaticDesc, optLen: int, staticLen: int, found: nat)
    requires Tallied(bl, freq, s, desc, optLen, staticLen, found)
    ensures |bl| == MAXBITS + 1 && |s| == desc.elems <= |freq| && desc.elems <= desc.extraBase + |desc.extraBits|
    ensures desc.staticLen == [] || desc.elems <= |desc.staticLen|
    ensures bl[0] == 0 && forall b :: 1 <= b <= MAXBITS ==> bl[b] == Count(s, b)
    ensures desc.maxLength <= MAXBITS && CountedAll(bl, desc.maxLength) == found
    ensures optLen == CostSoFar(freq, s, s, desc, desc.elems) && staticLen == StaticSoFar(freq, s, desc)
  {
  }

  lemma EndPass(dl: seq<int>, dl0: seq<int>, list: seq<int>, dads: seq<int>, leaves: set<int>, elems: nat, max: nat,
                z: seq<int>, s: seq<int>, over: int, excess: nat)
    requires Balance(list, dads, leaves, elems, max, z, |list|, s, over, excess)
    requires HalfWay(dl, dl0, list, dads, z, |list|) && elems <= |dl|
    requires forall n :: 0 <= n < elems && n !in leaves ==> dl0[n] == 0
    requires forall n :: 0 <= n < elems && s[n] != 0 ==> n in leaves && 1 <= s[n] <= max
    ensures dl[..elems] == s && Clamped(list, dads, leaves, elems, max, z, |list|)
    ensures forall n :: 0 <= n < elems ==> if n in leaves then 1 <= s[n] <= max else s[n] == 0
  {
    hide Count, UsedKraft, Pow2, Open;
    assert list[..|list|] == list;
    forall n | 0 <= n < elems
      ensures dl[n] == s[n] && (n in leaves ==> s[n] != 0)
    {
      if n in list {
        var q :| 0 <= q < |list| && list[q] == n;
        ClampedBounds(list, dads, leaves, elems, max, z, |list|, q);
      }
    }
  }

  // ---------- repair ----------

  lemma {:induction false} CountedBelow(bl: seq<int>, s: seq<int>, n: nat)
    requires n < |bl| && forall b :: 1 <= b <= n ==> bl[b] == Count(s, b)
    ensures CountedAll(bl, n) == Below(s, n + 1) - Below(s, 1)
  {
    hide Count, Below;
    if n > 0 {
      CountedBelow(bl, s, n - 1);
      BelowStep(s, n);
    }
  }

  /** What the first pass leaves can be repaired. */
  lemma CanRepair(bl: seq<int>, s: seq<int>, max: nat, excess: nat)
    requires 1 <= max <= MAXBITS && |bl| == MAXBITS + 1 && bl[0] == 0
    requires forall b :: 1 <= b <= MAXBITS ==> bl[b] == Count(s, b)
    requires UsedKraft(s, max) == Pow2(max) + excess && bl[max] >= excess && |s| <= Pow2(max)
    requires forall n :: 0 <= n < |s| ==> s[n] <= max
    ensures CountedAll(bl, max) >= 0 && Repairing(bl, max, excess, CountedAll(bl, max))
  {
    hide Count, Below, UsedKraft, CountedKraft, CountedAll, Pow2;
    CountedIsUsed(bl, s, max);
    CountedBelow(bl, s, max);
    BelowMonotone(s, 1, max + 1);
    forall b | max < b < |bl|
      ensures bl[b] == 0
    {
      Canonical.NoCount(s, b);
    }
  }

  /** Moves leaves down until no more are cut off. */
  method Repair(blCount: array<int>, maxLength: nat, overflow0: int, ghost excess0: nat, ghost leaves: nat)
    requires overflow0 == 2 * excess0 > 0 && Repairing(blCount[..], maxLength, excess0, leaves)
    modifies blCount
    ensures Repairing(blCount[..], maxLength, 0, leaves)
  {
    hide CountedKraft, CountedAll, Pow2, Repairing;
    var overflow := overflow0;
    ghost var excess := excess0;
    while true
      invariant overflow == 2 * excess > 0 && Repairing(blCount[..], maxLength, excess, leaves)
      decreases overflow
    {
      ghost var bl: seq<int> := blCount[..];
      RepairSize(bl, maxLength, excess, leaves);
      ShorterLeaf(bl, maxLength, excess, leaves);
      var bits := maxLength - 1;
      while blCount[bits] == 0
        invariant 1 <= bits < maxLength && exists b :: 1 <= b <= bits && bl[b] > 0
        decreases bits
        modifies {}
      {
        bits := bits - 1;
      }
      RepairStep(bl, maxLength, excess, leaves, bits);
      blCount[bits] := blCount[bits] - 1;
      ghost var bl1 := bl[bits := bl[bits] - 1];
      assert blCount[..] == bl1;
      blCount[bits + 1] := blCount[bits + 1] + 2;
      ghost var bl2 := bl1[bits + 1 := bl1[bits + 1] + 2];
      assert blCount[..] == bl2;
      blCount[maxLength] := blCount[maxLength] - 1;
      assert blCount[..] == bl2[maxLength := bl2[maxLength] - 1];
      overflow := overflow - 2;
      excess := excess - 1;
      if overflow <= 0 {
        break;
      }
    }
  }

  lemma RepairSize(bl: seq<int>, max: nat, excess: nat, leaves: nat)
    requires Repairing(bl, max, excess, leaves)
    ensures 1 <= max < |bl| && bl[0] == 0 && forall b :: 0 <= b < |bl| ==> bl[b] >= 0 && (max < b ==> bl[b] == 0)
  {
  }
}
