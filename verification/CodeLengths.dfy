/** Length-limited Huffman code lengths by repeated tree building: trees that come out too deep are thrown away,
    the weights halved, and the building starts again. */
module CodeLengths {
  import opened BucketSort
  import opened Bits
  import opened Canonical
  import opened HuffmanTree
  import opened HuffmanForest
  import opened NodeHeap

  ghost predicate HeapOf(h: seq<int>, wt: seq<int>, n: int, bag: multiset<int>) {
    IsHeap(h, wt, n) && Ordered(h, wt, n) && Bag(h, n) == bag
  }

  lemma PopOrder(h: seq<int>, wt: seq<int>, n: int)
    requires IsHeap(h, wt, n) && Ordered(h, wt, n) && 2 <= n
    ensures IsHeap(h[1 := h[n]], wt, n - 1) && OrderedAbove(h[1 := h[n]], wt, n - 1, 1)
  {
  }

  lemma PushOrder(h: seq<int>, wt: seq<int>, n: int, k: int)
    requires IsHeap(h, wt, n) && Ordered(h, wt, n) && n + 1 < |h| && 0 <= k < |wt| && wt[k] >= 1
    ensures IsHeap(h[n + 1 := k], wt, n + 1) && OrderedBut(h[n + 1 := k], wt, n + 1, n + 1)
  {
  }

  lemma LightestInBag(h: seq<int>, wt: seq<int>, n: int, bag: multiset<int>)
    requires HeapOf(h, wt, n, bag) && 1 <= n
    ensures h[1] in bag && 1 <= wt[h[1]]
    ensures forall k :: k in bag ==> 0 <= k < |wt| && wt[h[1]] <= wt[k]
  {
    assert h[1..n+1][0] == h[1];
    forall k | k in bag
      ensures 0 <= k < |wt| && wt[h[1]] <= wt[k]
    {
      InBag(h, n, k);
      var i :| 1 <= i <= n && h[i] == k;
      RootIsLightest(h, wt, n, i);
    }
  }

  /** Takes the lightest node off the heap. */
  method Extract(heap: array<int>, weight: array<int>, nHeap: int, ghost bag: multiset<int>) returns (x: int)
    requires heap != weight && 1 <= nHeap && HeapOf(heap[..], weight[..], nHeap, bag)
    modifies heap
    ensures x in bag && 0 <= x < weight.Length && 1 <= weight[x]
    ensures forall k :: k in bag ==> 0 <= k < weight.Length && weight[x] <= weight[k]
    ensures HeapOf(heap[..], weight[..], nHeap - 1, bag - multiset{x})
  {
    hide Ordered, OrderedAbove, Rearranged, Bag;
    ghost var h: seq<int>, wt: seq<int> := heap[..], weight[..];
    LightestInBag(h, wt, nHeap, bag);
    BagPop(h, nHeap);
    x := heap[1];
    heap[1] := heap[nHeap];
    ghost var g := h[1 := h[nHeap]];
    assert heap[..] == g;
    if nHeap > 1 {
      PopOrder(h, wt, nHeap);
      RearrangedRefl(g, 1, nHeap - 1);
      DownHeap(heap, weight, nHeap - 1, g);
      BagRearranged(g, heap[..], nHeap - 1);
    } else {
      EmptyHeap(g, wt);
    }
  }

  lemma EmptyHeap(h: seq<int>, wt: seq<int>)
    requires 1 <= |h| && 1 <= |wt| && h[0] == 0 && wt[0] == 0
    ensures IsHeap(h, wt, 0) && Ordered(h, wt, 0) && Bag(h, 0) == multiset{}
  {
  }

  /** Puts one more node on the heap. */
  method Insert(heap: array<int>, weight: array<int>, nHeap: int, k: int, ghost bag: multiset<int>)
    requires heap != weight && HeapOf(heap[..], weight[..], nHeap, bag)
    requires nHeap + 1 < heap.Length && 0 <= k < weight.Length && weight[k] >= 1
    modifies heap
    ensures HeapOf(heap[..], weight[..], nHeap + 1, bag + multiset{k})
  {
    hide Ordered, OrderedBut, Rearranged, Bag;
    ghost var h: seq<int>, wt: seq<int> := heap[..], weight[..];
    PushOrder(h, wt, nHeap, k);
    BagPush(h, nHeap, k);
    heap[nHeap + 1] := k;
    ghost var g := h[nHeap + 1 := k];
    assert heap[..] == g;
    RearrangedRefl(g, 1, nHeap + 1);
    UpHeap(heap, weight, nHeap + 1, g);
    BagRearranged(g, heap[..], nHeap + 1);
  }

  // ---------- building one tree ----------

  /** The heap holds exactly the roots of a forest over m nodes. */
  ghost predicate Building(h: seq<int>, n: int, p: seq<int>, wt: seq<int>, m: int, alpha: nat, total: int, l: int) {
    && 0 <= m < |p| && m < |wt| && 1 <= l && Growing(p, wt, m, alpha, total, l)
    && HeapOf(h, wt, n, multiset(Roots(p, m)))
  }

  lemma HeapWeights(h: seq<int>, wt: seq<int>, n: int, bag: multiset<int>, k: int, w: int)
    requires HeapOf(h, wt, n, bag) && 1 <= k < |wt| && k !in bag
    ensures HeapOf(h, wt[k := w], n, bag)
  {
    hide Bag;
    forall i | 1 <= i <= n
      ensures h[i] != k
    {
      BagHas(h, n, i);
    }
  }

  /** Joins the two lightest roots under a new node. */
  method Join(heap: array<int>, weight: array<int>, parent: array<int>, nHeap: int, nNodes: int, alpha: nat,
              ghost total: int, ghost l: int) returns (ghost l': int)
    requires heap != weight && heap != parent && weight != parent
    requires 2 <= nHeap < heap.Length && alpha <= nNodes && nNodes + 1 < parent.Length && nNodes + 1 < weight.Length
    requires Building(heap[..], nHeap, parent[..], weight[..], nNodes, alpha, total, l) && total < 0x80_0000
    modifies heap, weight, parent
    ensures weight[..nNodes + 1] == old(weight[..nNodes + 1])
    ensures Building(heap[..], nHeap - 1, parent[..], weight[..], nNodes + 1, alpha, total, l')
  {
    hide Growing, HeapOf, Joined, AddWeights;
    ghost var p: seq<int>, wt: seq<int> := parent[..], weight[..];
    ghost var roots := Roots(p, nNodes);
    ghost var bag := multiset(roots);
    var n1 := Extract(heap, weight, nHeap, bag);
    var n2 := Extract(heap, weight, nHeap - 1, bag - multiset{n1});
    assert n1 in roots && n2 in roots && n1 != n2;
    assert forall k :: k in roots && k != n1 ==> k in bag - multiset{n1};
    JoinGrows(p, wt, nNodes, alpha, total, l, n1, n2);
    parent[n1] := nNodes + 1;
    parent[n2] := nNodes + 1;
    ghost var bag2 := bag - multiset{n1} - multiset{n2};
    assert nNodes + 1 !in bag2;
    HeapWeights(heap[..], wt, nHeap - 2, bag2, nNodes + 1, AddWeights(wt[n1], wt[n2]));
    weight[nNodes + 1] := AddWeights(weight[n1], weight[n2]);
    parent[nNodes + 1] := -1;
    JoinedIs(p, parent[..], nNodes, n1, n2);
    assert weight[..] == wt[nNodes + 1 := AddWeights(wt[n1], wt[n2])];
    JoinedWeight(wt[n1], wt[n2]);
    Insert(heap, weight, nHeap - 2, nNodes + 1, bag2);
    JoinRoots(p, nNodes, n1, n2);
    JoinBag(roots, n1, n2, nNodes + 1);
    l' := WeightOf(wt[n2]);
  }

  lemma JoinedIs(p: seq<int>, q: seq<int>, m: nat, x: int, y: int)
    requires m + 1 < |p| && 1 <= x <= m && 1 <= y <= m && |p| == |q|
    requires q == p[x := m + 1][y := m + 1][m + 1 := -1]
    ensures q == Joined(p, m, x, y)
  {
  }

  lemma JoinedWeight(v: int, w: int)
    requires v >= 1 && w >= 1
    ensures AddWeights(v, w) >= 1
  {
  }

  lemma JoinBag(roots: set<int>, x: int, y: int, z: int)
    requires x in roots && y in roots && x != y && z !in roots
    ensures multiset(roots) - multiset{x} - multiset{y} + multiset{z} == multiset(roots - {x} - {y} + {z})
  {
  }

  /** What the leaves weigh together. */
  ghost function LeafSum(wt: seq<int>, m: nat): int
    requires m < |wt|
  {
    if m == 0 then 0 else LeafSum(wt, m - 1) + WeightOf(wt[m])
  }

  ghost predicate Leaves(wt: seq<int>, alpha: nat) {
    alpha < |wt| && forall k :: 1 <= k <= alpha ==> 1 <= WeightOf(wt[k]) && DepthOf(wt[k]) == 0
  }

  lemma {:induction false} RootsAreLeaves(p: seq<int>, wt: seq<int>, m: nat)
    requires m < |p| && m < |wt| && forall k :: 1 <= k <= m ==> p[k] == -1
    ensures RootSum(p, wt, m) == LeafSum(wt, m)
  {
    if m > 0 {
      RootsAreLeaves(p, wt, m - 1);
    }
  }

  /** Before any join every leaf is a root. */
  lemma FirstForest(p: seq<int>, wt: seq<int>, alpha: nat)
    requires alpha < |p| && Leaves(wt, alpha) && forall k :: 1 <= k <= alpha ==> p[k] == -1
    ensures Growing(p, wt, alpha, alpha, LeafSum(wt, alpha), 1)
  {
    RootsAreLeaves(p, wt, alpha);
    assert Fib(1) == 1 && Fib(2) == 1;
  }

  lemma OneMoreRoot(p: seq<int>, q: seq<int>, m: nat)
    requires m + 1 < |p| == |q| && q == p[m + 1 := -1]
    ensures multiset(Roots(q, m + 1)) == multiset(Roots(p, m)) + multiset{m + 1}
  {
    assert Roots(q, m + 1) == Roots(p, m) + {m + 1};
  }

  lemma SmallWeight(wt: seq<int>, alpha: nat, k: int)
    requires Leaves(wt, alpha) && 1 <= k <= alpha
    ensures wt[k] >= 1
  {
  }

  /** Puts every leaf on the heap. */
  method PlantLeaves(heap: array<int>, weight: array<int>, parent: array<int>, alpha: nat)
    requires heap != weight && heap != parent && weight != parent
    requires alpha + 1 < heap.Length && alpha < parent.Length && alpha < weight.Length && Leaves(weight[..], alpha)
    modifies heap, weight, parent
    ensures weight[1..] == old(weight[1..])
    ensures Building(heap[..], alpha, parent[..], weight[..], alpha, alpha, LeafSum(weight[..], alpha), 1)
  {
    hide Leaves, Growing, HeapOf, LeafSum;
    heap[0] := 0;
    ghost var w0: seq<int> := weight[..];
    LeavesFrame(w0, w0[0 := 0], alpha);
    weight[0] := 0;
    assert weight[..] == w0[0 := 0];
    parent[0] := -2;
    ghost var wt: seq<int> := weight[..];
    EmptyHeapOf(heap[..], wt, parent[..]);
    var i := 1;
    while i <= alpha
      invariant 1 <= i <= alpha + 1 && weight[..] == wt
      invariant forall k :: 1 <= k < i ==> parent[k] == -1
      invariant HeapOf(heap[..], wt, i - 1, multiset(Roots(parent[..], i - 1)))
    {
      ghost var p: seq<int> := parent[..];
      parent[i] := -1;
      OneMoreRoot(p, parent[..], i - 1);
      SmallWeight(wt, alpha, i);
      Insert(heap, weight, i - 1, i, multiset(Roots(p, i - 1)));
      i := i + 1;
    }
    FirstForest(parent[..], wt, alpha);
  }

  lemma LeavesFrame(wt: seq<int>, vt: seq<int>, alpha: nat)
    requires Leaves(wt, alpha) && |vt| == |wt| && forall k :: 1 <= k <= alpha ==> vt[k] == wt[k]
    ensures Leaves(vt, alpha)
  {
  }

  lemma EmptyHeapOf(h: seq<int>, wt: seq<int>, p: seq<int>)
    requires 1 <= |h| && 1 <= |wt| && 1 <= |p| && h[0] == 0 && wt[0] == 0
    ensures HeapOf(h, wt, 0, multiset(Roots(p, 0)))
  {
    EmptyHeap(h, wt);
    assert Roots(p, 0) == {};
  }

  /** A leaf more than twelve levels down means much weight. */
  ghost predicate DeepIfHeavy(p: seq<int>, n: nat, alpha: nat, total: int) {
    Rooted(p, n) && alpha <= n && forall k :: 1 <= k <= alpha && Depth(p, n, k) > 12 ==> total >= 610
  }

  lemma OnlyHeavyDeep(p: seq<int>, wt: seq<int>, m: nat, alpha: nat, total: int, l: nat)
    requires Growing(p, wt, m, alpha, total, l) && Tree(p, m, alpha) && p[m] < 0
    ensures DeepIfHeavy(p, m, alpha, total)
  {
    hide Depth, Growing;
    forall k | 1 <= k <= alpha
      ensures Depth(p, m, k) > 12 ==> total >= 610
    {
      DeepIsHeavy(p, wt, m, alpha, total, l, k);
    }
  }

  /** Builds the whole tree over the current weights. */
  method BuildTree(heap: array<int>, weight: array<int>, parent: array<int>, alpha: nat)
    requires heap != weight && heap != parent && weight != parent
    requires 2 <= alpha <= MAX_ALPHA_SIZE && heap.Length == MAX_ALPHA_SIZE + 2
    requires weight.Length == 2 * MAX_ALPHA_SIZE && parent.Length == 2 * MAX_ALPHA_SIZE
    requires Leaves(weight[..], alpha) && LeafSum(weight[..], alpha) < 0x80_0000
    modifies heap, weight, parent
    ensures weight[1..alpha + 1] == old(weight[1..alpha + 1])
    ensures Tree(parent[..], 2 * alpha - 1, alpha) && parent[2 * alpha - 1] < 0
    ensures DeepIfHeavy(parent[..], 2 * alpha - 1, alpha, LeafSum(weight[..], alpha))
  {
    hide Leaves, Growing, HeapOf, LeafSum, Tree, Depth;
    ghost var w0: seq<int> := weight[..];
    PlantLeaves(heap, weight, parent, alpha);
    assert weight[1..][..alpha] == w0[1..][..alpha];
    ghost var total := LeafSum(weight[..], alpha);
    LeafSumFrame(w0, weight[..], alpha);
    ghost var l := 1;
    var nNodes, nHeap := alpha, alpha;
    assert weight[1..alpha + 1] == w0[1..alpha + 1];
    while nHeap > 1
      invariant 1 <= nHeap <= alpha <= nNodes && nNodes + nHeap == 2 * alpha
      invariant weight[1..alpha + 1] == w0[1..alpha + 1]
      invariant Building(heap[..], nHeap, parent[..], weight[..], nNodes, alpha, total, l)
    {
      ghost var v: seq<int> := weight[..nNodes + 1];
      assert v[1..alpha + 1] == weight[1..alpha + 1];
      l := Join(heap, weight, parent, nHeap, nNodes, alpha, total, l);
      assert weight[1..alpha + 1] == weight[..nNodes + 1][1..alpha + 1] == v[1..alpha + 1];
      nNodes := nNodes + 1;
      nHeap := nHeap - 1;
    }
    LeafSumFrame(w0, weight[..], alpha);
    LastRoot(heap[..], parent[..], weight[..], nNodes, alpha, total, l);
    OnlyHeavyDeep(parent[..], weight[..], nNodes, alpha, total, l);
  }

  lemma {:induction false} LeafSumFrame(wt: seq<int>, vt: seq<int>, alpha: nat)
    requires alpha < |wt| && alpha < |vt| && wt[1..alpha + 1] == vt[1..alpha + 1]
    ensures LeafSum(wt, alpha) == LeafSum(vt, alpha)
  {
    if alpha > 0 {
      assert wt[1..alpha + 1][..alpha - 1] == wt[1..alpha] && vt[1..alpha + 1][..alpha - 1] == vt[1..alpha];
      assert wt[1..alpha + 1][alpha - 1] == wt[alpha] && vt[1..alpha + 1][alpha - 1] == vt[alpha];
      LeafSumFrame(wt, vt, alpha - 1);
    }
  }

  /** A heap of one entry holds the last node made. */
  lemma LastRoot(h: seq<int>, p: seq<int>, wt: seq<int>, m: int, alpha: nat, total: int, l: int)
    requires Building(h, 1, p, wt, m, alpha, total, l) && 2 <= alpha < m
    ensures Tree(p, m, alpha) && p[m] < 0
  {
    hide Deepening, Fibonacci, RootSum;
    var roots := Roots(p, m);
    assert Bag(h, 1) == multiset{h[1]} by {
      assert h[1..2] == [h[1]];
    }
    assert h[1] in multiset(roots);
    forall k | k in roots
      ensures k == h[1]
    {
      assert k in multiset(roots);
    }
    assert p[m] < 0;
    assert m in roots;
    assert roots == {m};
    OneRoot(p, m, alpha);
  }

  // ---------- measuring and scaling ----------

  method CountSteps(parent: array<int>, n: nat, ghost alpha: nat, i: nat) returns (j: nat)
    requires n < parent.Length && Tree(parent[..], n, alpha) && parent[n] < 0 && 1 <= i <= n
    ensures j == Depth(parent[..], n, i)
  {
    ghost var p: seq<int> := parent[..];
    j := 0;
    var k := i;
    while parent[k] >= 0
      invariant 1 <= k <= n && j + Depth(p, n, k) == Depth(p, n, i)
      decreases n - k
    {
      k := parent[k];
      j := j + 1;
    }
  }

  /** Takes the leaf depths as code lengths and says whether one is too long. */
  method MeasureDepths(parent: array<int>, n: nat, len: array<int>, alphaSize: nat, maxLen: nat) returns (tooLong: bool)
    requires parent != len && n < parent.Length && Tree(parent[..], n, alphaSize) && parent[n] < 0
    requires alphaSize <= len.Length
    modifies len
    ensures forall i :: 0 <= i < alphaSize ==> len[i] == Depth(parent[..], n, i + 1)
    ensures forall i :: alphaSize <= i < len.Length ==> len[i] == old(len[i])
    ensures tooLong <==> exists i :: 0 <= i < alphaSize && len[i] > maxLen
  {
    hide Tree, Depth;
    ghost var p: seq<int> := parent[..];
    TreeHeight(p, n, alphaSize);
    tooLong := false;
    ghost var worst := 0;
    var i := 1;
    while i <= alphaSize
      invariant 1 <= i <= alphaSize + 1
      invariant forall k :: 0 <= k < i - 1 ==> len[k] == Depth(p, n, k + 1)
      invariant forall k :: alphaSize <= k < len.Length ==> len[k] == old(len[k])
      invariant !tooLong ==> forall k :: 0 <= k < i - 1 ==> len[k] <= maxLen
      invariant tooLong ==> 0 <= worst < i - 1 && len[worst] > maxLen
    {
      var j := CountSteps(parent, n, alphaSize, i);
      len[i - 1] := j;
      if j > maxLen {
        tooLong, worst := true, i - 1;
      }
      i := i + 1;
    }
  }

  lemma TreeHeight(p: seq<int>, n: nat, alpha: nat)
    requires Tree(p, n, alpha)
    ensures alpha < n < |p| && Rooted(p, n)
  {
  }

  /** Halves the weights, keeping them at least one. */
  method Scale(weight: array<int>, alphaSize: nat)
    requires Leaves(weight[..], alphaSize)
    modifies weight
    ensures Leaves(weight[..], alphaSize)
    ensures LeafSum(weight[..], alphaSize) <= LeafSum(old(weight[..]), alphaSize)
    ensures LeafSum(old(weight[..]), alphaSize) > 2 * alphaSize ==>
      LeafSum(weight[..], alphaSize) < LeafSum(old(weight[..]), alphaSize)
  {
    hide LeafSum;
    ghost var w: seq<int> := weight[..];
    var i := 1;
    while i <= alphaSize
      invariant 1 <= i <= alphaSize + 1
      invariant forall k :: 1 <= k < i ==> DepthOf(weight[k]) == 0 && WeightOf(weight[k]) == Halved(WeightOf(w[k]))
      invariant forall k :: i <= k < weight.Length ==> weight[k] == w[k]
    {
      HalvedParts(WeightOf(weight[i]));
      var j := weight[i] / 256;
      j := 1 + (j / 2);
      weight[i] := j * 256;
      i := i + 1;
    }
    ScaledSum(w, weight[..], alphaSize);
  }

  function Halved(w: int): int { 1 + w / 2 }

  lemma HalvedParts(w: int)
    requires w >= 1
    ensures 1 <= Halved(w) && WeightOf(Halved(w) * 256) == Halved(w) && DepthOf(Halved(w) * 256) == 0
  {
  }

  lemma {:induction false} ScaledSum(w: seq<int>, v: seq<int>, m: nat)
    requires m < |w| && m < |v|
    requires forall k :: 1 <= k <= m ==> 1 <= WeightOf(w[k]) && WeightOf(v[k]) == Halved(WeightOf(w[k]))
    ensures LeafSum(v, m) <= LeafSum(w, m)
    ensures LeafSum(w, m) > 2 * m ==> LeafSum(v, m) < LeafSum(w, m)
  {
    if m > 0 {
      ScaledSum(w, v, m - 1);
    }
  }

  // ---------- the whole computation ----------

  /** The weight a frequency starts with. */
  function Initial(f: int): int {
    if f == 0 then 1 else f
  }

  function InitialSum(freq: seq<int>): int {
    if freq == [] then 0 else InitialSum(freq[..|freq|-1]) + Initial(freq[|freq|-1])
  }

  method InitialWeights(weight: array<int>, freq: array<int>, alphaSize: nat)
    requires weight != freq && alphaSize < weight.Length && alphaSize <= freq.Length
    requires forall i :: 0 <= i < alphaSize ==> 0 <= freq[i]
    modifies weight
    ensures Leaves(weight[..], alphaSize)
    ensures LeafSum(weight[..], alphaSize) == InitialSum(freq[..alphaSize])
  {
    var i := 0;
    while i < alphaSize
      invariant 0 <= i <= alphaSize
      invariant forall k :: 1 <= k <= i ==> weight[k] == Initial(freq[k - 1]) * 256
    {
      weight[i + 1] := (if freq[i] == 0 then 1 else freq[i]) * 256;
      i := i + 1;
    }
    InitialLeaves(weight[..], freq[..], alphaSize);
    assert freq[..][..alphaSize] == freq[..alphaSize];
  }

  lemma {:induction false} InitialLeaves(wt: seq<int>, freq: seq<int>, m: nat)
    requires m < |wt| && m <= |freq| && forall i :: 0 <= i < m ==> 0 <= freq[i]
    requires forall k :: 1 <= k <= m ==> wt[k] == Initial(freq[k - 1]) * 256
    ensures Leaves(wt, m) && LeafSum(wt, m) == InitialSum(freq[..m])
  {
    if m > 0 {
      InitialLeaves(wt, freq, m - 1);
      assert freq[..m][..m-1] == freq[..m-1];
      assert wt[m] == Initial(freq[m - 1]) * 256;
    }
  }

  /** Lengths of a complete prefix code, none above maxLen. Terminates for every frequency table: a tree of
      more than twelve levels weighs at least 610, more than twice the number of symbols, so some weight
      shrinks when they are halved. */
  method MakeCodeLengths(len: array<int>, freq: array<int>, alphaSize: nat, maxLen: nat)
    requires len != freq && 2 <= alphaSize <= MAX_ALPHA_SIZE && alphaSize <= len.Length && alphaSize <= freq.Length
    requires forall i :: 0 <= i < alphaSize ==> 0 <= freq[i]
    requires InitialSum(freq[..alphaSize]) < 0x80_0000 && 12 <= maxLen
    modifies len
    ensures forall i :: 0 <= i < alphaSize ==> 1 <= len[i] <= maxLen
    ensures Kraft(len[..alphaSize], maxLen) == Pow2(maxLen)
    ensures forall i :: alphaSize <= i < len.Length ==> len[i] == old(len[i])
  {
    hide Leaves, LeafSum, Tree, Depth, Kraft, InitialSum, Pow2;
    var heap := new int[MAX_ALPHA_SIZE + 2];
    var weight := new int[2 * MAX_ALPHA_SIZE];
    var parent := new int[2 * MAX_ALPHA_SIZE];
    InitialWeights(weight, freq, alphaSize);
    var tooLong := true;
    while tooLong
      invariant fresh(heap) && fresh(weight) && fresh(parent)
      invariant Leaves(weight[..], alphaSize) && LeafSum(weight[..], alphaSize) < 0x80_0000
      invariant forall i :: alphaSize <= i < len.Length ==> len[i] == old(len[i])
      invariant !tooLong ==> (forall i :: 0 <= i < alphaSize ==> 1 <= len[i] <= maxLen)
      invariant !tooLong ==> Kraft(len[..alphaSize], maxLen) == Pow2(maxLen)
      decreases if tooLong then 1 + LeafBudget(weight[..], alphaSize) else 0
    {
      ghost var w0: seq<int> := weight[..];
      BuildTree(heap, weight, parent, alphaSize);
      LeafSumFrame(w0, weight[..], alphaSize);
      LeavesKept(w0, weight[..], alphaSize);
      tooLong := MeasureDepths(parent, 2 * alphaSize - 1, len, alphaSize, maxLen);
      if tooLong {
        Scale(weight, alphaSize);
      } else {
        LeafDepths(parent[..], 2 * alphaSize - 1, alphaSize, maxLen, len[..alphaSize]);
      }
    }
  }

  ghost function LeafBudget(wt: seq<int>, alpha: nat): (r: nat)
    requires Leaves(wt, alpha)
    ensures r == LeafSum(wt, alpha)
  {
    LeafSumPositive(wt, alpha);
    LeafSum(wt, alpha)
  }

  lemma {:induction false} LeafSumPositive(wt: seq<int>, alpha: nat)
    requires Leaves(wt, alpha)
    ensures 0 <= LeafSum(wt, alpha)
  {
    if alpha > 0 {
      LeafSumPositive(wt, alpha - 1);
    }
  }

  lemma LeavesKept(wt: seq<int>, vt: seq<int>, alpha: nat)
    requires Leaves(wt, alpha) && alpha < |vt| && wt[1..alpha + 1] == vt[1..alpha + 1]
    ensures Leaves(vt, alpha)
  {
    forall k | 1 <= k <= alpha
      ensures vt[k] == wt[k]
    {
      assert wt[1..alpha + 1][k - 1] == vt[1..alpha + 1][k - 1];
    }
  }

  lemma LeafDepths(p: seq<int>, n: nat, alpha: nat, maxLen: nat, len: seq<int>)
    requires Tree(p, n, alpha) && |len| == alpha
    requires forall i :: 0 <= i < alpha ==> len[i] == Depth(p, n, i + 1) && len[i] <= maxLen
    ensures forall i :: 0 <= i < alpha ==> 1 <= len[i] <= maxLen
    ensures Kraft(len, maxLen) == Pow2(maxLen)
  {
    hide Kraft, Pow2;
    forall i | 1 <= i <= alpha
      ensures Depth(p, n, i) <= maxLen
    {
      assert len[i - 1] == Depth(p, n, i - 1 + 1);
    }
    TreeKraft(p, n, alpha, maxLen);
    assert len == Depths(p, n, alpha);
  }
}
