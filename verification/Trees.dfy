/** build_tree: from symbol frequencies to code lengths, codes and block size. */
module Trees {
  import opened Counting
  import opened Permutations
  import opened Bits
  import opened NodeHeap
  import opened DeflateHeap
  import opened DeflateTree
  import opened DeflateCodes
  import opened LengthRepair
  import opened SortedCodes
  import opened TreeCodes
  import opened TreeGrowth
  import opened TreeLengths
  import BitIO
  import Canonical
  import DepthClamp

  /** The working state of tree construction. */
  class Builder {
    const heap: array<int>
    const depth: array<int>
    const blCount: array<int>
    var heapLen: int
    var heapMax: int
    var optLen: int
    var staticLen: int

    ghost predicate Valid() {
      && heap.Length == depth.Length == HEAP_SIZE && blCount.Length == MAXBITS + 1
      && heap != depth && heap != blCount && depth != blCount
    }

    /** A tree array pair of the caller: frequencies that become codes, fathers that become lengths. */
    ghost predicate Fits(fc: array<int>, dl: array<int>, elems: nat) {
      && fc != dl && fc != heap && fc != depth && fc != blCount && dl != heap && dl != depth && dl != blCount
      && 2 * elems + 1 <= fc.Length == dl.Length <= HEAP_SIZE
    }

    constructor ()
      ensures Valid() && fresh(heap) && fresh(depth) && fresh(blCount) && optLen == staticLen == 0 && Depths(depth[..])
    {
      heap := new int[HEAP_SIZE](i => 0);
      depth := new int[HEAP_SIZE](i => 0);
      blCount := new int[MAXBITS + 1](i => 0);
      heapLen, heapMax, optLen, staticLen := 0, HEAP_SIZE, 0, 0;
    }

    // ---------- joining ----------

    /** The queue holds the live nodes, the space from heapMax on the list of joined ones. */
    ghost predicate Combining(fc: array<int>, dl: array<int>, list: seq<int>, dads: seq<int>, live: set<int>,
                              leaves: set<int>, elems: nat, node: nat)
      reads this, heap, depth, fc, dl
    {
      && Valid() && Fits(fc, dl, elems) && Depths(depth[..]) && elems <= 286
      && QueueOf(heap[..], Keys(fc[..], depth[..]), heapLen, live)
      && (forall x :: x in live && 0 <= x < fc.Length ==> fc[x] >= 0)
      && Growing(list, dads, live, leaves, elems, node, dl[..])
      && 0 <= heapMax == HEAP_SIZE - 2 * (node - elems) && heap[heapMax..] == list
      && 1 <= heapLen && heapLen + (node - elems) <= elems
    }

    /** Moves the two least frequent nodes to the list; the second one also stays on top of the queue. */
    method TakeTwo(fc: array<int>, dl: array<int>, node: nat, elems: nat, ghost list: seq<int>, ghost dads: seq<int>,
                   ghost live: set<int>, ghost leaves: set<int>)
      returns (n: int, m: int)
      requires Combining(fc, dl, list, dads, live, leaves, elems, node) && heapLen >= 2
      modifies this`heapLen, this`heapMax, heap
      ensures heapLen == old(heapLen) - 1 && heapMax == old(heapMax) - 2 && n in live && m in live && n != m
      ensures 0 <= n < fc.Length && 0 <= m < fc.Length && heap[1] == m
      ensures fc[n] <= fc[m] && forall k :: k in live && k != n ==> 0 <= k < fc.Length && fc[m] <= fc[k]
      ensures QueueOf(heap[..], Keys(fc[..], depth[..]), heapLen, live - {n})
      ensures heap[heapMax..] == [m, n] + list
    {
      hide QueueOf, Keys, Growing;
      GrowingSize(list, dads, live, leaves, elems, node, dl[..]);
      NodeSpace(elems, node, heapLen);
      ghost var key := Keys(fc[..], depth[..]);
      n := PqRemove(heap, heapLen, fc, depth, live);
      heapLen := heapLen - 1;
      ghost var h: seq<int> := heap[..];
      LeastOfAll(h, key, heapLen, live - {n});
      m := heap[1];
      heapMax := heapMax - 1;
      heap[heapMax] := n;
      heapMax := heapMax - 1;
      heap[heapMax] := m;
      assert heap[heapMax..] == [m, n] + list;
      QueueBelow(h, heap[..], key, heapLen, live - {n});
      forall k | k in live && k != n
        ensures 0 <= k < fc.Length && fc[m] <= fc[k]
      {
        assert k in live - {n};
        KeyOrder(fc[..], depth[..], m, k);
      }
      KeyOrder(fc[..], depth[..], n, m);
    }

    method NewFather(fc: array<int>, dl: array<int>, node: nat, n: nat, m: nat)
      requires Valid() && fc != dl && fc != depth && dl != depth && node < fc.Length == dl.Length <= HEAP_SIZE
      requires n < node && m < node && fc[n] >= 0 && fc[m] >= 0 && Depths(depth[..])
      modifies depth, fc, dl
      ensures fc[..] == old(fc[..])[node := Ush(old(fc[n] + fc[m]))] && fc[node] >= 0
      ensures dl[..] == old(dl[..])[n := node][m := node]
      ensures Depths(depth[..]) && forall k :: 0 <= k < depth.Length && k != node ==> depth[k] == old(depth[k])
    {
      hide Ush;
      UshRange(fc[n] + fc[m]);
      fc[node] := Ush(fc[n] + fc[m]);
      depth[node] := ((if depth[n] >= depth[m] then depth[n] else depth[m]) + 1) % 256;
      dl[n] := node;
      dl[m] := node;
    }

    /** Joins the two least frequent nodes under a new one. */
    method Join(fc: array<int>, dl: array<int>, node: nat, elems: nat, ghost list: seq<int>, ghost dads: seq<int>,
                ghost live: set<int>, ghost leaves: set<int>, ghost total: int)
      returns (ghost x: int, ghost y: int)
      requires Combining(fc, dl, list, dads, live, leaves, elems, node) && heapLen >= 2
      modifies this`heapLen, this`heapMax, heap, depth, fc, dl
      ensures heapLen == old(heapLen) - 1 && x in live && y in live && x != y
      ensures Combining(fc, dl, [y, x] + list, [node, node] + dads, live - {x} - {y} + {node}, leaves, elems, node + 1)
      ensures old(Ranked(list, dads, live, node, fc[..], total)) ==>
        Ranked([y, x] + list, [node, node] + dads, live - {x} - {y} + {node}, node + 1, fc[..], total)
      ensures forall n :: 0 <= n < elems ==> fc[n] == old(fc[n])
    {
      hide QueueOf, Keys, Growing, Ranked, Ush;
      ghost var freq: seq<int>, dep: seq<int>, d: seq<int> := fc[..], depth[..], dl[..];
      GrowingSize(list, dads, live, leaves, elems, node, d);
      NodeSpace(elems, node, heapLen);
      var n, m := TakeTwo(fc, dl, node, elems, list, dads, live, leaves);
      x, y := n, m;
      GrowingStep(list, dads, live, leaves, elems, node, d, n, m);
      NewFather(fc, dl, node, n, m);
      KeysFrame(freq, fc[..], dep, depth[..], node);
      QueueFrame(heap[..], Keys(freq, dep), Keys(fc[..], depth[..]), heapLen, live - {n});
      ghost var tail: seq<int> := heap[heapMax..];
      PqReplace(heap, heapLen, fc, depth, node, live - {n});
      assert heap[heapMax..] == tail;
      if Ranked(list, dads, live, node, freq, total) {
        RankedStep(list, dads, live, node, freq, fc[..], total, n, m);
      }
    }

    // ---------- the queue of symbols ----------

    /** Enters one more symbol. */
    method Enter(node: nat)
      requires Valid() && Depths(depth[..]) && node < HEAP_SIZE && 0 <= heapLen && heapLen + 1 < HEAP_SIZE
      modifies this`heapLen, heap, depth
      ensures Depths(depth[..]) && heapLen == old(heapLen) + 1 && heap[..] == old(heap[..])[heapLen := node]
    {
      heapLen := heapLen + 1;
      heap[heapLen] := node;
      depth[node] := 0;
    }

    method Collect(fc: array<int>, dl: array<int>, elems: nat) returns (maxCode: int, ghost live: set<int>)
      requires Valid() && Fits(fc, dl, elems) && Depths(depth[..]) && elems <= 286
      modifies this`heapLen, this`heapMax, heap, depth, dl
      ensures Collected(heap[..], heapLen, fc[..], dl[..], elems, elems, live, maxCode) && heapMax == HEAP_SIZE
      ensures Depths(depth[..])
    {
      hide Collected;
      heapLen, heapMax := 0, HEAP_SIZE;
      maxCode, live := -1, {};
      NoneCollected(heap[..], fc[..], dl[..], elems);
      var n := 0;
      while n < elems
        invariant 0 <= n <= elems && 0 <= heapLen <= n && heapMax == HEAP_SIZE && Depths(depth[..])
        invariant Collected(heap[..], heapLen, fc[..], dl[..], elems, n, live, maxCode)
        modifies this`heapLen, heap, depth, dl
      {
        CollectedStep(heap[..], heapLen, fc[..], dl[..], elems, n, live, maxCode);
        if fc[n] != 0 {
          Enter(n);
          maxCode := n;
          live := live + {n};
        } else {
          ghost var d: seq<int> := dl[..];
          dl[n] := 0;
          assert dl[..] == d[n := 0];
        }
        n := n + 1;
      }
    }

    /** At least two symbols must have codes; what the added ones will cost is taken off in advance. */
    method Force(fc: array<int>, dl: array<int>, desc: StaticDesc, maxCode0: int, ghost live0: set<int>)
      returns (maxCode: int, ghost live: set<int>)
      requires Valid() && Fits(fc, dl, desc.elems) && Depths(depth[..]) && IsDesc(desc)
      requires Collected(heap[..], heapLen, fc[..], dl[..], desc.elems, desc.elems, live0, maxCode0)
      modifies this`heapLen, this`optLen, this`staticLen, heap, depth, fc
      ensures Depths(depth[..]) && heapLen >= 2
      ensures Collected(heap[..], heapLen, fc[..], dl[..], desc.elems, desc.elems, live, maxCode)
      ensures OnlyForced(old(fc[..]), fc[..], desc.elems)
      ensures optLen == old(optLen) - Forced(old(fc[..]), fc[..], desc.elems)
      ensures staticLen + StaticCost(fc[..], desc) == old(staticLen + StaticCost(fc[..], desc))
      ensures Forced(old(fc[..]), fc[..], desc.elems) > 0 ==> heapLen == 2
    {
      hide Collected, Forced, OnlyForced, StaticCost, IsDesc;
      maxCode, live := maxCode0, live0;
      ghost var f0: seq<int> := fc[..];
      DescParts(desc);
      NoneForced(f0, desc.elems);
      while heapLen < 2
        invariant Collected(heap[..], heapLen, fc[..], dl[..], desc.elems, desc.elems, live, maxCode)
        invariant Depths(depth[..])
        invariant OnlyForced(f0, fc[..], desc.elems) && optLen == old(optLen) - Forced(f0, fc[..], desc.elems)
        invariant staticLen + StaticCost(fc[..], desc) == old(staticLen + StaticCost(fc[..], desc))
        invariant Forced(f0, fc[..], desc.elems) > 0 ==> heapLen <= 2
        decreases 2 - heapLen
        modifies this`heapLen, this`optLen, this`staticLen, heap, depth, fc
      {
        ghost var f: seq<int> := fc[..];
        CollectedForced(heap[..], heapLen, f, dl[..], desc.elems, live, maxCode);
        var node := 0;
        if maxCode < 2 {
          maxCode := maxCode + 1;
          node := maxCode;
        }
        OneForced(f0, f, desc, node);
        Enter(node);
        fc[node] := 1;
        assert fc[..] == f[node := 1];
        optLen := optLen - 1;
        if desc.staticLen != [] {
          staticLen := staticLen - desc.staticLen[node];
        }
        live := live + {node};
      }
    }

    // ---------- build_tree ----------

    /** Joins until one node is left, the root of the tree. */
    method Combine(fc: array<int>, dl: array<int>, elems: nat, ghost leaves: set<int>, ghost total: int)
      returns (ghost list: seq<int>, ghost dads: seq<int>)
      requires Combining(fc, dl, [], [], leaves, leaves, elems, elems) && heapLen >= 2
      modifies this`heapLen, this`heapMax, heap, depth, fc, dl
      ensures Valid() && Depths(depth[..]) && 0 <= heapMax <= HEAP_SIZE && heap[heapMax..] == list
      ensures Grown(list, dads, leaves, elems) && HoldsDads(dl[..], list, dads)
      ensures forall i :: 0 <= i < |list| ==> 0 <= list[i] < dl.Length
      ensures forall n :: 0 <= n < elems ==> fc[n] == old(fc[n]) && (n !in leaves ==> dl[n] == 0)
      ensures old(Ranked([], [], leaves, elems, fc[..], total)) ==>
          |list| == |dads| >= 1 && Descending(list, fc[..]) && Paired(list[1..], dads[1..], fc[..])
    {
      hide QueueOf, Keys, Growing, Ranked, Grown, HoldsDads, Descending, Paired;
      var node := elems;
      list, dads := [], [];
      ghost var live := leaves;
      while true
        invariant elems <= node && Combining(fc, dl, list, dads, live, leaves, elems, node) && heapLen >= 2
        invariant forall n :: 0 <= n < elems ==> fc[n] == old(fc[n])
        invariant old(Ranked([], [], leaves, elems, fc[..], total)) ==> Ranked(list, dads, live, node, fc[..], total)
        decreases heapLen
      {
        ghost var x, y := Join(fc, dl, node, elems, list, dads, live, leaves, total);
        live := live - {x} - {y} + {node};
        list, dads := [y, x] + list, [node, node] + dads;
        node := node + 1;
        if heapLen < 2 {
          break;
        }
      }
      ghost var root := heap[1];
      LastRoot(heap[..], Keys(fc[..], depth[..]), live, list, dads, leaves, elems, node, dl[..], fc[..], total);
      heapMax := heapMax - 1;
      heap[heapMax] := heap[1];
      assert heap[heapMax..] == [root] + list;
      list, dads := [root] + list, [-1] + dads;
    }

    /** The lengths are final: the frequencies of the symbols in use give way to their codes. */
    method CodesOf(fc: array<int>, dl: array<int>, desc: StaticDesc, maxCode: int, ghost f0: seq<int>,
                   ghost f1: seq<int>, ghost live: set<int>)
      requires Valid() && Fits(fc, dl, desc.elems) && IsDesc(desc) && |f0| == |f1| == fc.Length
      requires Lengths(dl[..desc.elems], blCount[..], live, desc.maxLength) && OnlyForced(f0, f1, desc.elems)
      requires 0 <= maxCode < desc.elems && maxCode in live && |live| >= 2
      requires forall n :: n in live ==> 0 <= n <= maxCode
      requires forall n :: 0 <= n < desc.elems ==> (n in live <==> f1[n] != 0)
      modifies fc
      ensures HasCode(f0, fc[..], dl[..], desc, maxCode)
    {
      hide OnlyForced, IsDesc, Count, UsedKraft, Pow2, Lengths, HasCode;
      DescParts(desc);
      LengthsCode(dl[..desc.elems], blCount[..], live, desc, maxCode, dl[..]);
      TrailingKraft(dl[..desc.elems], maxCode + 1, MAXBITS);
      var consistent := GenCodes(fc, dl, maxCode, blCount);
      assert consistent;
      CodesDone(f0, f1, fc[..], dl[..], blCount[..], live, desc, maxCode);
    }

    /** Builds the tree for the frequencies in fc and derives lengths, codes and the bits the symbols will need. */
    method BuildTree(fc: array<int>, dl: array<int>, desc: StaticDesc) returns (maxCode: int)
      requires Valid() && Fits(fc, dl, desc.elems) && Depths(depth[..]) && IsDesc(desc)
      requires forall n :: 0 <= n < desc.elems ==> fc[n] >= 0
      modifies this, heap, depth, blCount, fc, dl
      ensures Depths(depth[..])
      ensures HasCode(old(fc[..]), fc[..], dl[..], desc, maxCode)
      ensures optLen == old(optLen) + Cost(old(fc[..]), dl[..desc.elems], desc, desc.elems)
      ensures staticLen == old(staticLen + StaticCost(fc[..], desc))
      ensures Total(old(fc[..]), desc.elems) < 0x1_0000 ==> RarerLonger(old(fc[..]), dl[..], desc.elems)
    {
      hide QueueOf, Keys, Growing, Ranked, Grown, HoldsDads, Descending, Paired, Collected, Forced, OnlyForced, IsDesc,
           Cost, StaticCost, Bag, Total, RarerIsLonger, RarerLonger, Count, UsedKraft, Pow2, Lengths, HasCode, NodesFit;
      ghost var f0: seq<int> := fc[..];
      DescParts(desc);
      ghost var live;
      maxCode, live := Collect(fc, dl, desc.elems);
      maxCode, live := Force(fc, dl, desc, maxCode, live);
      ghost var f1: seq<int> := fc[..];
      CollectedQueue(heap[..], heapLen, f0, f1, depth[..], dl[..], desc.elems, live, maxCode);
      BuildHeap(heap, heapLen, fc, depth, live);
      NothingGrown(live, desc.elems, dl[..], f1);
      ghost var list, dads := Combine(fc, dl, desc.elems, live, LiveSum(f1, live, desc.elems));
      ghost var f2: seq<int> := fc[..];
      LeavesFit(list, dads, live, desc.elems, dl.Length, fc.Length, maxCode);
      optLen, staticLen := GenBitlen(heap, heapMax, fc, dl, blCount, maxCode, desc, optLen, staticLen, list, dads,
          live);
      ghost var lens: seq<int> := dl[..desc.elems];
      CodesOf(fc, dl, desc, maxCode, f0, f1, live);
      CostsDone(f0, f1, f2, lens, blCount[..], live, desc);
      RanksDone(f0, f1, f2, dl[..], blCount[..], live, desc);
    }
  }

  function Total(freq: seq<int>, m: nat): int
    requires m <= |freq|
  {
    if m == 0 then 0 else Total(freq, m - 1) + freq[m - 1]
  }

  /** What the tree arrays hold in the end: a complete code within the limit for every symbol that occurs, and the
      reversed codewords that belong to the lengths. */
  ghost predicate HasCode(freq: seq<int>, code: seq<int>, dl: seq<int>, desc: StaticDesc, maxCode: int) {
    && desc.elems <= |freq| == |code| == |dl| && 1 <= maxCode < desc.elems && desc.maxLength <= MAXBITS
    && (forall n :: 0 <= n < desc.elems ==> 0 <= dl[n] <= desc.maxLength && (freq[n] > 0 ==> dl[n] > 0))
    && dl[maxCode] > 0 && (forall n :: maxCode < n < desc.elems ==> dl[n] == 0)
    && UsedKraft(dl[..desc.elems], desc.maxLength) == Pow2(desc.maxLength) && Complete(dl[..desc.elems])
    && forall n :: 0 <= n < desc.elems && dl[n] > 0 ==> code[n] == Value(Codeword(dl[..desc.elems], n))
  }

  /** Rarer symbols never have shorter codes. */
  ghost predicate RarerLonger(freq: seq<int>, dl: seq<int>, elems: nat) {
    elems <= |freq| && elems <= |dl| &&
    forall a, b :: 0 <= a < elems && 0 <= b < elems && 0 < freq[a] < freq[b] ==> dl[a] >= dl[b]
  }

  /** The collected symbols as a queue. */
  lemma CollectedQueue(h: seq<int>, hl: int, f0: seq<int>, f: seq<int>, dep: seq<int>, dl: seq<int>, elems: nat,
                       live: set<int>, maxCode: int)
    requires Collected(h, hl, f, dl, elems, elems, live, maxCode) && OnlyForced(f0, f, elems) && |f| <= |dep| && hl >= 1
    requires forall n :: 0 <= n < elems ==> f0[n] >= 0
    ensures Queue(h, Keys(f, dep), hl) && Bag(h, hl) == multiset(live) && |live| == hl <= elems && 0 <= maxCode < elems
    ensures maxCode in live
    ensures forall n :: 0 <= n < elems ==> f[n] >= 0 && (n in live <==> f[n] != 0)
    ensures forall n :: n in live ==> 0 <= n <= maxCode && n < elems
    ensures forall n :: 0 <= n < elems && n !in live ==> dl[n] == 0
  {
    forall i | 1 <= i <= hl
      ensures h[i] in live
    {
      BagHas(h, hl, i);
    }
    SubsetSize(live, Range(elems));
  }

  lemma NothingGrown(live: set<int>, elems: nat, dl: seq<int>, freq: seq<int>)
    requires 3 <= elems <= |dl| && elems <= |freq| && (forall n :: n in live ==> 0 <= n < elems)
    requires forall n :: 0 <= n < elems && n !in live ==> dl[n] == 0
    requires forall n :: 0 <= n < elems ==> freq[n] >= 0
    ensures Growing([], [], live, live, elems, elems, dl)
    ensures LiveSum(freq, live, elems) < 0x1_0000 ==> Ranked([], [], live, elems, freq, LiveSum(freq, live, elems))
  {
  }

  lemma LeavesFit(list: seq<int>, dads: seq<int>, live: set<int>, elems: nat, size: nat, size': nat, maxCode: int)
    requires Grown(list, dads, live, elems) && maxCode < elems && (forall n :: n in live ==> n <= maxCode)
    requires forall i :: 0 <= i < |list| ==> 0 <= list[i] < size && list[i] < size'
    ensures NodesFit(list, size, size', maxCode, elems)
  {
  }

  lemma {:induction false} TrailingCount(lens: seq<int>, n: nat, c: int)
    requires n <= |lens| && c >= 1 && forall k :: n <= k < |lens| ==> lens[k] == 0
    ensures Count(lens[..n], c) == Count(lens, c)
  {
    assert lens == lens[..n] + lens[n..];
    CountConcat(lens[..n], lens[n..], c);
    Canonical.NoCount(lens[n..], c);
  }

  lemma {:induction false} TrailingKraft(lens: seq<int>, n: nat, m: nat)
    requires n <= |lens| && forall k :: n <= k < |lens| ==> lens[k] == 0
    ensures UsedKraft(lens[..n], m) == UsedKraft(lens, m)
    decreases m
  {
    hide Count, UsedKraft;
    UsedKraftStep(lens, m);
    UsedKraftStep(lens[..n], m);
    if m > 0 {
      TrailingKraft(lens, n, m - 1);
      UsedKraftStep(lens, m - 1);
      UsedKraftStep(lens[..n], m - 1);
      TrailingCount(lens, n, m);
    }
  }

  lemma {:induction false} TrailingNext(lens: seq<int>, n: nat, b: nat)
    requires n <= |lens| && forall k :: n <= k < |lens| ==> lens[k] == 0
    ensures NextCode(lens[..n], b) == NextCode(lens, b)
    decreases b
  {
    hide Count;
    if b > 0 {
      TrailingNext(lens, n, b - 1);
      if b > 1 {
        TrailingCount(lens, n, b - 1);
      }
    }
  }

  lemma TrailingCodeword(lens: seq<int>, n: nat, s: nat)
    requires s < n <= |lens| && 0 <= lens[s] && forall k :: n <= k < |lens| ==> lens[k] == 0
    ensures Codeword(lens[..n], s) == Codeword(lens, s)
  {
    TrailingNext(lens, n, lens[s]);
    assert lens[..n][..s] == lens[..s];
  }

  /** A code that fills the space of n bits fills that of more bits. */
  lemma {:induction false} KraftUp(lens: seq<int>, n: nat, m: nat)
    requires n <= m && UsedKraft(lens, n) == Pow2(n) && forall k :: 0 <= k < |lens| ==> lens[k] <= n
    ensures UsedKraft(lens, m) == Pow2(m)
    decreases m
  {
    hide UsedKraft, Count, Pow2;
    if n < m {
      KraftUp(lens, n, m - 1);
      UsedKraftStep(lens, m - 1);
      Canonical.NoCount(lens, m);
      BitIO.Pow2Step(m - 1);
    }
  }

  /** What gen_codes asks for. */
  lemma LengthsCode(lens: seq<int>, bl: seq<int>, live: set<int>, desc: StaticDesc, maxCode: nat, dl: seq<int>)
    requires Lengths(lens, bl, live, desc.maxLength) && desc.maxLength <= MAXBITS
    requires maxCode < desc.elems == |lens| <= |dl|
    requires lens == dl[..desc.elems] && forall n :: n in live ==> n <= maxCode
    ensures dl[..maxCode + 1] == lens[..maxCode + 1] && IsLens(lens) && IsLens(dl[..maxCode + 1])
    ensures forall k :: maxCode + 1 <= k < |lens| ==> lens[k] == 0
    ensures Complete(lens) && UsedKraft(dl[..maxCode + 1], MAXBITS) <= Pow2(MAXBITS)
    ensures |bl| == MAXBITS + 1 && bl[0] == 0 && forall b :: 1 <= b <= MAXBITS ==> bl[b] == Count(dl[..maxCode + 1], b)
  {
    hide Count, UsedKraft, Pow2;
    assert dl[..maxCode + 1] == lens[..maxCode + 1];
    KraftUp(lens, desc.maxLength, MAXBITS);
    TrailingKraft(lens, maxCode + 1, MAXBITS);
    forall b | 1 <= b <= MAXBITS
      ensures bl[b] == Count(dl[..maxCode + 1], b)
    {
      TrailingCount(lens, maxCode + 1, b);
    }
  }

  lemma CodesDone(f0: seq<int>, f1: seq<int>, code: seq<int>, dl: seq<int>, bl: seq<int>, live: set<int>,
                  desc: StaticDesc, maxCode: nat)
    requires desc.elems <= |f0| == |f1| == |code| == |dl| && Lengths(dl[..desc.elems], bl, live, desc.maxLength)
    requires desc.maxLength <= MAXBITS && maxCode < desc.elems && maxCode in live && |live| >= 2
    requires (forall n :: n in live ==> 0 <= n <= maxCode) && OnlyForced(f0, f1, desc.elems)
    requires forall n :: 0 <= n < desc.elems ==> (n in live <==> f1[n] != 0)
    requires forall n :: 0 <= n <= maxCode && dl[n] != 0 ==>
        0 <= dl[n] && code[n] == Value(Codeword(dl[..maxCode + 1], n))
    ensures HasCode(f0, code, dl, desc, maxCode)
  {
    hide Count, UsedKraft, Pow2, Value, Codeword;
    var lens := dl[..desc.elems];
    LengthsCode(lens, bl, live, desc, maxCode, dl);
    forall n | 0 <= n < desc.elems && dl[n] > 0
      ensures code[n] == Value(Codeword(lens, n))
    {
      assert lens[n] == dl[n];
      TrailingCodeword(lens, maxCode + 1, n);
    }
    if maxCode == 0 {
      SubsetSize(live, {0});
    }
  }

  lemma {:induction false} CostOfForced(f0: seq<int>, f: seq<int>, lens: seq<int>, desc: StaticDesc, m: nat)
    requires m <= |f0| && m <= |f| && m <= |lens| && m <= desc.elems <= desc.extraBase + |desc.extraBits|
    requires forall n :: 0 <= n < m && f[n] != f0[n] ==>
        f0[n] == 0 && f[n] == 1 && lens[n] == 1 && ExtraOf(desc, n) == 0
    ensures Cost(f, lens, desc, m) == Cost(f0, lens, desc, m) + Forced(f0, f, m)
  {
    if m > 0 {
      CostOfForced(f0, f, lens, desc, m - 1);
    }
  }

  /** Two codewords that fill the code space have one bit each. */
  lemma TwoLeaves(lens: seq<int>, x: int, y: int, max: nat)
    requires 0 <= x < |lens| && 0 <= y < |lens| && x != y && 1 <= lens[x] <= max && 1 <= lens[y] <= max
    requires (forall n :: 0 <= n < |lens| && n != x && n != y ==> lens[n] == 0) && UsedKraft(lens, max) == Pow2(max)
    ensures lens[x] == 1 && lens[y] == 1
  {
    hide UsedKraft, Pow2;
    var s := lens[x := 0][y := 0];
    DepthClamp.NothingUsed(s, max);
    DepthClamp.UsedKraftSet(s, x, lens[x], max);
    DepthClamp.UsedKraftSet(s[x := lens[x]], y, lens[y], max);
    assert s[x := lens[x]][y := lens[y]] == lens;
    BitIO.Pow2Step(max - 1);
    Pow2Monotone(max - lens[x], max - 1);
    Pow2Monotone(max - lens[y], max - 1);
    if lens[x] > 1 {
      BitIO.Pow2Step(max - 2);
      Pow2Monotone(max - lens[x], max - 2);
    }
    if lens[y] > 1 {
      BitIO.Pow2Step(max - 2);
      Pow2Monotone(max - lens[y], max - 2);
    }
  }

  lemma TwoMembers(live: set<int>, m: nat) returns (x: int, y: int)
    requires |live| == 2 && forall n :: n in live ==> 0 <= n < m
    ensures x != y && live == {x, y}
  {
    x := OneMember(live, m);
    y := OneMember(live - {x}, m);
    assert |live - {x} - {y}| == 0;
    assert live - {x} == {y} && live == {x} + (live - {x});
  }

  lemma {:induction false} OneMember(live: set<int>, m: nat) returns (x: int)
    requires |live| >= 1 && forall n :: n in live ==> 0 <= n < m
    ensures x in live
    decreases m
  {
    Bounded(live, m);
    if m - 1 in live {
      x := m - 1;
    } else {
      x := OneMember(live, m - 1);
    }
  }

  lemma Bounded(live: set<int>, m: nat)
    requires forall n :: n in live ==> 0 <= n < m
    ensures |live| <= m
  {
    SubsetSize(live, Range(m));
  }

  lemma ForcedLens(f0: seq<int>, f: seq<int>, lens: seq<int>, bl: seq<int>, live: set<int>, elems: nat, max: nat)
    requires Lengths(lens, bl, live, max) && |lens| == elems <= |f0| == |f| && |live| == 2 && OnlyForced(f0, f, elems)
    requires forall n :: n in live ==> 0 <= n < elems
    ensures forall n :: n in live ==> lens[n] == 1
  {
    hide UsedKraft, Pow2, Count;
    var x, y := TwoMembers(live, elems);
    TwoLeaves(lens, x, y, max);
  }

  /** What was taken off in advance pays for the forced symbols. */
  lemma CostsDone(f0: seq<int>, f1: seq<int>, f2: seq<int>, lens: seq<int>, bl: seq<int>, live: set<int>,
                  desc: StaticDesc)
    requires IsDesc(desc) && Lengths(lens, bl, live, desc.maxLength) && |lens| == desc.elems <= |f0| == |f1| == |f2|
    requires OnlyForced(f0, f1, desc.elems)
    requires forall n :: 0 <= n < desc.elems ==> f2[n] == f1[n] && (n in live <==> f1[n] != 0)
    requires (forall n :: n in live ==> 0 <= n < desc.elems) && (Forced(f0, f1, desc.elems) > 0 ==> |live| == 2)
    ensures desc.elems <= desc.extraBase + |desc.extraBits| && (desc.staticLen == [] || desc.elems <= |desc.staticLen|)
    ensures Cost(f2, lens, desc, desc.elems) == Cost(f0, lens, desc, desc.elems) + Forced(f0, f1, desc.elems)
    ensures StaticCost(f2, desc) == StaticCost(f1, desc)
  {
    hide Cost, Lengths;
    CostOther(f2, f1, lens, desc, desc.elems);
    if desc.staticLen != [] {
      CostOther(f2, f1, desc.staticLen, desc, desc.elems);
    }
    if Forced(f0, f1, desc.elems) > 0 {
      ForcedLens(f0, f1, lens, bl, live, desc.elems, desc.maxLength);
    } else {
      NotForced(f0, f1, desc.elems);
    }
    CostOfForced(f0, f1, lens, desc, desc.elems);
  }

  lemma {:induction false} NotForced(f0: seq<int>, f: seq<int>, m: nat)
    requires m <= |f0| && m <= |f| && Forced(f0, f, m) == 0
    ensures forall n :: 0 <= n < m ==> f[n] == f0[n]
  {
    if m > 0 {
      NotForced(f0, f, m - 1);
    }
  }

  lemma {:induction false} LiveIsTotal(f: seq<int>, live: set<int>, m: nat)
    requires m <= |f| && forall n :: 0 <= n < m ==> (n in live <==> f[n] != 0)
    ensures LiveSum(f, live, m) == Total(f, m)
  {
    if m > 0 {
      LiveIsTotal(f, live, m - 1);
    }
  }

  lemma {:induction false} TotalSame(f: seq<int>, g: seq<int>, m: nat)
    requires m <= |f| && m <= |g| && forall n :: 0 <= n < m ==> f[n] == g[n]
    ensures Total(f, m) == Total(g, m)
  {
    if m > 0 {
      TotalSame(f, g, m - 1);
    }
  }

  /** Without forced symbols the order of the frequencies shows in the lengths; with them there are just two codes. */
  lemma RanksDone(f0: seq<int>, f1: seq<int>, f2: seq<int>, dl: seq<int>, bl: seq<int>, live: set<int>,
                  desc: StaticDesc)
    requires desc.elems <= |f0| == |f1| == |f2| == |dl| && Lengths(dl[..desc.elems], bl, live, desc.maxLength)
    requires OnlyForced(f0, f1, desc.elems)
    requires forall n :: 0 <= n < desc.elems ==> f2[n] == f1[n] && (n in live <==> f1[n] != 0)
    requires (forall n :: n in live ==> 0 <= n < desc.elems) && (Forced(f0, f1, desc.elems) > 0 ==> |live| == 2)
    requires LiveSum(f1, live, desc.elems) < 0x1_0000 ==> RarerIsLonger(f2, dl, live)
    ensures Total(f0, desc.elems) < 0x1_0000 ==> RarerLonger(f0, dl, desc.elems)
  {
    hide Count, UsedKraft, Pow2, Lengths;
    if Total(f0, desc.elems) < 0x1_0000 {
      if Forced(f0, f1, desc.elems) == 0 {
        NotForced(f0, f1, desc.elems);
        LiveIsTotal(f1, live, desc.elems);
        TotalSame(f0, f1, desc.elems);
      } else {
        ForcedLens(f0, f1, dl[..desc.elems], bl, live, desc.elems, desc.maxLength);
        forall n | n in live
          ensures dl[n] == 1
        {
          assert dl[..desc.elems][n] == dl[n];
        }
      }
    }
  }

  lemma LastRoot(h: seq<int>, key: seq<int>, live: set<int>, list: seq<int>, dads: seq<int>, leaves: set<int>,
                 elems: nat, node: nat, dl: seq<int>, freq: seq<int>, total: int)
    requires QueueOf(h, key, 1, live) && Growing(list, dads, live, leaves, elems, node, dl) && elems < node
    requires node - 1 in live
    ensures 1 < |h| && 0 <= h[1] < |dl| && Grown([h[1]] + list, [-1] + dads, leaves, elems)
    ensures HoldsDads(dl, [h[1]] + list, [-1] + dads)
    ensures forall i :: 0 <= i < |list| + 1 ==> 0 <= ([h[1]] + list)[i] < |dl|
    ensures forall n :: 0 <= n < elems && n !in leaves ==> dl[n] == 0
    ensures |list| == |dads|
    ensures Ranked(list, dads, live, node, freq, total) ==>
      Descending([h[1]] + list, freq) && Paired(([h[1]] + list)[1..], ([-1] + dads)[1..], freq)
  {
    hide Paired, Members, Fathered, Grown, Descending, HoldsDads;
    assert h[1..2] == [h[1]];
    assert h[1] in multiset(live) && node - 1 in multiset(live);
    OnlyMember(live, h[1]);
    Finished(list, dads, leaves, elems, node, h[1]);
    MembersBelow(list, dads, live, leaves, elems, node);
    RootHolds(dl, list, dads, h[1]);
    if Ranked(list, dads, live, node, freq, total) {
      RootDescends(list, freq, h[1]);
      assert ([h[1]] + list)[1..] == list && ([-1] + dads)[1..] == dads;
    }
  }

  lemma RootHolds(dl: seq<int>, list: seq<int>, dads: seq<int>, root: int)
    requires |list| == |dads| && forall i :: 0 <= i < |list| ==> 0 <= list[i] < |dl| && dl[list[i]] == dads[i]
    ensures HoldsDads(dl, [root] + list, [-1] + dads)
  {
    var l, d := [root] + list, [-1] + dads;
    forall i | 1 <= i < |l|
      ensures 0 <= l[i] < |dl| && dl[l[i]] == d[i]
    {
      assert l[i] == list[i - 1] && d[i] == dads[i - 1];
    }
  }

  lemma RootDescends(list: seq<int>, freq: seq<int>, root: int)
    requires ByFreq(list, {root}, freq)
    ensures Descending([root] + list, freq)
  {
    var l := [root] + list;
    forall i, j | 0 <= i < j < |l|
      ensures freq[l[i]] >= freq[l[j]]
    {
      assert l[j] == list[j - 1];
      if i > 0 {
        assert l[i] == list[i - 1];
      }
    }
  }

  lemma OnlyMember(live: set<int>, x: int)
    requires multiset(live) == multiset{x}
    ensures live == {x}
  {
    forall y | y in live
      ensures y == x
    {
      assert y in multiset(live);
    }
    assert x in multiset(live);
  }

  /** The queue, in no order yet, holds those of the first n symbols that occur. */
  ghost predicate Collected(h: seq<int>, hl: int, freq: seq<int>, dl: seq<int>, elems: nat, n: nat, live: set<int>,
                            maxCode: int) {
    && n <= elems <= |freq| && elems <= |dl| && live == (set x | 0 <= x < n && freq[x] != 0)
    && 0 <= hl == |live| && hl < |h| && Bag(h, hl) == multiset(live)
    && (forall x :: 0 <= x < n && x !in live ==> dl[x] == 0)
    && (if live == {} then maxCode == -1 else maxCode in live) && forall x :: x in live ==> x <= maxCode
  }

  lemma NoneCollected(h: seq<int>, freq: seq<int>, dl: seq<int>, elems: nat)
    requires |h| > 0 && elems <= |freq| && elems <= |dl|
    ensures Collected(h, 0, freq, dl, elems, 0, {}, -1)
  {
    NoBag(h);
  }

  lemma CollectedStep(h: seq<int>, hl: int, freq: seq<int>, dl: seq<int>, elems: nat, n: nat, live: set<int>,
                      maxCode: int)
    requires Collected(h, hl, freq, dl, elems, n, live, maxCode) && n < elems && hl + 1 < |h|
    ensures 0 <= hl
    ensures freq[n] != 0 ==> Collected(h[hl + 1 := n], hl + 1, freq, dl, elems, n + 1, live + {n}, n)
    ensures freq[n] == 0 ==> Collected(h, hl, freq, dl[n := 0], elems, n + 1, live, maxCode)
  {
    hide Bag;
    BagPush(h, hl, n);
    SetWith(live, n);
  }

  /** The number that is forced next is not in use. */
  lemma NewSymbol(live: set<int>, maxCode: int)
    requires |live| < 2 && (if live == {} then maxCode == -1 else maxCode in live && maxCode >= 0)
    requires forall x :: x in live ==> x <= maxCode
    ensures (if maxCode < 2 then maxCode + 1 else 0) !in live && -1 <= maxCode
  {
    if maxCode >= 2 && 0 in live {
      SubsetSize({0, maxCode}, live);
    }
  }

  lemma CollectedForced(h: seq<int>, hl: int, freq: seq<int>, dl: seq<int>, elems: nat, live: set<int>, maxCode: int)
    requires Collected(h, hl, freq, dl, elems, elems, live, maxCode) && elems >= 3 && hl < 2 && 3 < |h|
    ensures 0 <= hl && -1 <= maxCode
    ensures
      var node := if maxCode < 2 then maxCode + 1 else 0;
      node !in live && freq[node] == 0 &&
      Collected(h[hl + 1 := node], hl + 1, freq[node := 1], dl, elems, elems, live + {node},
                if maxCode < 2 then maxCode + 1 else maxCode)
  {
    hide Bag;
    var node := if maxCode < 2 then maxCode + 1 else 0;
    NewSymbol(live, maxCode);
    BagPush(h, hl, node);
    SetWith(live, node);
  }

  lemma NoBag(h: seq<int>)
    requires |h| > 0
    ensures Bag(h, 0) == multiset{}
  {
  }

  /** Differences from the original frequencies: forced symbols, which have neither occurred nor extra bits. */
  ghost predicate OnlyForced(f0: seq<int>, f: seq<int>, m: nat) {
    && m <= |f0| == |f| && (forall n :: 0 <= n < m ==> f[n] == f0[n] || (n < 3 && f0[n] == 0 && f[n] == 1))
    && forall n :: m <= n < |f| ==> f[n] == f0[n]
  }

  function Forced(f0: seq<int>, f: seq<int>, m: nat): (r: nat)
    requires m <= |f0| && m <= |f|
  {
    if m == 0 then 0 else Forced(f0, f, m - 1) + (if f[m - 1] != f0[m - 1] then 1 else 0)
  }

  lemma {:induction false} NoneForced(f: seq<int>, m: nat)
    requires m <= |f|
    ensures Forced(f, f, m) == 0 && OnlyForced(f, f, m)
  {
    if m > 0 {
      NoneForced(f, m - 1);
    }
  }

  lemma {:induction false} ForcedFrame(f0: seq<int>, f: seq<int>, g: seq<int>, m: nat)
    requires m <= |f0| && m <= |f| && m <= |g| && forall n :: 0 <= n < m ==> f[n] == g[n]
    ensures Forced(f0, f, m) == Forced(f0, g, m)
  {
    if m > 0 {
      ForcedFrame(f0, f, g, m - 1);
    }
  }

  lemma {:induction false} ForcedSet(f0: seq<int>, f: seq<int>, m: nat, node: nat)
    requires node < m <= |f0| && m <= |f| && f[node] == f0[node] == 0
    ensures Forced(f0, f[node := 1], m) == Forced(f0, f, m) + 1
  {
    if node < m - 1 {
      ForcedSet(f0, f, m - 1, node);
    } else {
      ForcedFrame(f0, f, f[node := 1], m - 1);
    }
  }

  lemma OneForced(f0: seq<int>, f: seq<int>, desc: StaticDesc, node: nat)
    requires IsDesc(desc) && OnlyForced(f0, f, desc.elems) && node < 3 && f[node] == 0
    ensures OnlyForced(f0, f[node := 1], desc.elems)
    ensures Forced(f0, f[node := 1], desc.elems) == Forced(f0, f, desc.elems) + 1
    ensures desc.elems <= desc.extraBase + |desc.extraBits| && (desc.staticLen == [] || desc.elems <= |desc.staticLen|)
    ensures StaticCost(f[node := 1], desc) ==
        StaticCost(f, desc) + (if desc.staticLen == [] then 0 else desc.staticLen[node])
  {
    hide Cost, Pow2;
    ForcedSet(f0, f, desc.elems, node);
    if desc.staticLen != [] {
      CostRises(f, desc.staticLen, desc, desc.elems, node);
    }
  }

  lemma NodeSpace(elems: nat, node: nat, heapLen: int)
    requires elems <= 286 && elems <= node && 2 <= heapLen && heapLen + (node - elems) <= elems
    ensures node < 2 * elems && heapLen + 2 <= HEAP_SIZE - 2 * (node - elems)
  {
  }

  /** The queue does not notice what happens above it. */
  lemma QueueBelow(h: seq<int>, g: seq<int>, key: seq<int>, n: int, nodes: set<int>)
    requires QueueOf(h, key, n, nodes) && |g| == |h| && forall i :: 1 <= i <= n ==> g[i] == h[i]
    ensures QueueOf(g, key, n, nodes)
  {
    assert g[1..n+1] == h[1..n+1];
  }

  lemma KeyOrder(freq: seq<int>, depth: seq<int>, n: int, m: int)
    requires |freq| <= |depth| && Depths(depth) && 0 <= n < |freq| && 0 <= m < |freq|
    requires Keys(freq, depth)[n] <= Keys(freq, depth)[m]
    ensures freq[n] <= freq[m]
  {
  }

  lemma KeysFrame(freq: seq<int>, freq': seq<int>, depth: seq<int>, depth': seq<int>, node: int)
    requires |freq| == |freq'| <= |depth| == |depth'|
    requires forall k :: 0 <= k < |freq| && k != node ==> freq'[k] == freq[k] && depth'[k] == depth[k]
    ensures |Keys(freq, depth)| == |Keys(freq', depth')| == |freq|
    ensures forall k :: 0 <= k < |freq| && k != node ==> Keys(freq', depth')[k] == Keys(freq, depth)[k]
  {
  }

  lemma GrowingSize(list: seq<int>, dads: seq<int>, live: set<int>, leaves: set<int>, elems: nat, node: nat,
                    dl: seq<int>)
    requires Growing(list, dads, live, leaves, elems, node, dl)
    ensures 3 <= elems <= node <= |dl| && forall x :: x in live ==> 0 <= x < node
  {
  }

  lemma UshRange(v: nat)
    ensures 0 <= Ush(v)
  {
  }
}
