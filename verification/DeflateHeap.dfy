/** The priority queue of tree nodes that deflate draws the least frequent ones from; of equally frequent nodes the
    shallower one comes first. Entries run from 1; the space above the queue is used for other things. */
module DeflateHeap {
  import opened BucketSort
  import opened NodeHeap

  /** Frequency first, then depth below the node. */
  ghost function Keys(freq: seq<int>, depth: seq<int>): (key: seq<int>)
    requires |freq| <= |depth|
    ensures |key| == |freq|
  {
    seq(|freq|, i requires 0 <= i < |freq| => freq[i] * 256 + depth[i])
  }

  ghost predicate Depths(depth: seq<int>) {
    forall i :: 0 <= i < |depth| ==> 0 <= depth[i] < 256
  }

  predicate Smaller(freq: array<int>, n: int, m: int, depth: array<int>)
    requires 0 <= n < freq.Length <= depth.Length && 0 <= m < freq.Length
    reads freq, depth
  {
    freq[n] < freq[m] || (freq[n] == freq[m] && depth[n] <= depth[m])
  }

  lemma SmallerIs(freq: array<int>, n: int, m: int, depth: array<int>)
    requires 0 <= n < freq.Length <= depth.Length && 0 <= m < freq.Length && Depths(depth[..])
    ensures Smaller(freq, n, m, depth) <==> Keys(freq[..], depth[..])[n] <= Keys(freq[..], depth[..])[m]
  {
    assert depth[..][n] == depth[n] && depth[..][m] == depth[m];
  }

  ghost predicate Queue(h: seq<int>, key: seq<int>, n: int) {
    0 <= n < |h| && forall i :: 1 <= i <= n ==> 0 <= h[i] < |key|
  }

  /** Below entry k and what lies under it the order holds. */
  ghost predicate HeapFrom(h: seq<int>, key: seq<int>, n: int, k: int) {
    Queue(h, key, n) && forall i :: 2 <= i <= n && i / 2 >= k ==> key[h[i/2]] <= key[h[i]]
  }

  ghost predicate FromBut(h: seq<int>, key: seq<int>, n: int, k: int, z: int) {
    Queue(h, key, n) && forall i :: 2 <= i <= n && i / 2 >= k && i / 2 != z ==> key[h[i/2]] <= key[h[i]]
  }

  /** The entries below z are no smaller than the one above it. */
  ghost predicate Spans(h: seq<int>, key: seq<int>, n: int, k: int, z: int) {
    Queue(h, key, n) && 1 <= k <= z <= n
    && (z / 2 >= k ==> forall i :: 2 <= i <= n && i / 2 == z ==> key[h[z/2]] <= key[h[i]])
  }

  lemma SinkStep(h: seq<int>, key: seq<int>, n: int, k: int, z: int, y: int)
    requires FromBut(h, key, n, k, z) && Spans(h, key, n, k, z) && 2 <= y <= n && y / 2 == z
    requires key[h[y]] <= key[h[z]] && forall i :: 2 <= i <= n && i / 2 == z ==> key[h[y]] <= key[h[i]]
    ensures FromBut(Exch(h, z, y), key, n, k, y) && Spans(Exch(h, z, y), key, n, k, y)
  {
    var g := Exch(h, z, y);
    forall i | 2 <= i <= n && i / 2 >= k && i / 2 != y
      ensures key[g[i/2]] <= key[g[i]]
    {
      if i != z && i / 2 != z {
        assert key[h[i/2]] <= key[h[i]];
      }
    }
    forall i | 2 <= i <= n && i / 2 == y
      ensures key[g[y/2]] <= key[g[i]]
    {
      assert key[h[i/2]] <= key[h[i]];
    }
  }

  lemma SinkDone(h: seq<int>, key: seq<int>, n: int, k: int, z: int)
    requires FromBut(h, key, n, k, z) && 1 <= k <= z
    requires forall i :: 2 <= i <= n && i / 2 == z ==> key[h[z]] <= key[h[i]]
    ensures HeapFrom(h, key, n, k)
  {
  }

  lemma SinkStart(h: seq<int>, key: seq<int>, n: int, k: int)
    requires HeapFrom(h, key, n, k + 1) && 1 <= k <= n
    ensures Queue(h, key, n) && FromBut(h, key, n, k, k) && Spans(h, key, n, k, k)
  {
  }

  lemma LesserSon(h: seq<int>, key: seq<int>, n: int, z: int, y: int)
    requires Queue(h, key, n) && 1 <= z && 2 * z <= n
    requires y == if 2 * z < n && key[h[2 * z + 1]] <= key[h[2 * z]] then 2 * z + 1 else 2 * z
    ensures 2 <= y <= n && y / 2 == z
    ensures forall i :: 2 <= i <= n && i / 2 == z ==> key[h[y]] <= key[h[i]]
  {
    forall i | 2 <= i <= n && i / 2 == z
      ensures i == 2 * z || i == 2 * z + 1
    {
    }
  }

  /** Restores the heap property by letting the entry at k sink. */
  method PqDownHeap(heap: array<int>, heapLen: int, freq: array<int>, depth: array<int>, k: int)
    requires heap != freq && heap != depth && freq.Length <= depth.Length && Depths(depth[..])
    requires 1 <= k <= heapLen && HeapFrom(heap[..], Keys(freq[..], depth[..]), heapLen, k + 1)
    modifies heap
    ensures HeapFrom(heap[..], Keys(freq[..], depth[..]), heapLen, k)
    ensures Rearranged(old(heap[..]), heap[..], 1, heapLen)
  {
    hide Rearranged, FromBut, Spans, HeapFrom, Exch, Keys, Smaller;
    ghost var f0: seq<int>, key := heap[..], Keys(freq[..], depth[..]);
    ghost var h := f0;
    SinkStart(h, key, heapLen, k);
    var v := heap[k];
    var z := k;
    var j := z * 2;
    RearrangedRefl(f0, 1, heapLen);
    while j <= heapLen
      invariant k <= z <= heapLen && j == 2 * z && heap.Length == |h| && Queue(h, key, heapLen) && h[z] == v
      invariant forall i :: 0 <= i < |h| && i != z ==> heap[i] == h[i]
      invariant FromBut(h, key, heapLen, k, z) && Spans(h, key, heapLen, k, z) && Rearranged(f0, h, 1, heapLen)
      decreases heapLen - z
    {
      if j < heapLen {
        SmallerIs(freq, heap[j + 1], heap[j], depth);
        if Smaller(freq, heap[j + 1], heap[j], depth) {
          j := j + 1;
        }
      }
      LesserSon(h, key, heapLen, z, j);
      SmallerIs(freq, v, heap[j], depth);
      if Smaller(freq, v, heap[j], depth) {
        break;
      }
      SinkStep(h, key, heapLen, k, z, j);
      ExchRearranges(f0, h, 1, heapLen, z, j);
      ExchAt(h, z, j);
      ExchQueue(h, key, heapLen, z, j);
      h := Exch(h, z, j);
      heap[z] := heap[j];
      z := j;
      j := j * 2;
    }
    SinkDone(h, key, heapLen, k, z);
    heap[z] := v;
    assert heap[..] == h;
  }

  lemma ExchQueue(h: seq<int>, key: seq<int>, n: int, i: int, j: int)
    requires Queue(h, key, n) && 1 <= i <= n && 1 <= j <= n
    ensures Queue(Exch(h, i, j), key, n)
  {
  }

  lemma {:induction false} TopIsLeast(h: seq<int>, key: seq<int>, n: int, i: int)
    requires HeapFrom(h, key, n, 1) && 1 <= i <= n
    ensures key[h[1]] <= key[h[i]]
    decreases i
  {
    if i > 1 {
      TopIsLeast(h, key, n, i / 2);
    }
  }

  /** The queue holds exactly these nodes. */
  ghost predicate QueueOf(h: seq<int>, key: seq<int>, n: int, nodes: set<int>) {
    HeapFrom(h, key, n, 1) && Bag(h, n) == multiset(nodes)
  }

  lemma LeastOfAll(h: seq<int>, key: seq<int>, n: int, nodes: set<int>)
    requires QueueOf(h, key, n, nodes) && 1 <= n
    ensures h[1] in nodes && forall k :: k in nodes ==> 0 <= k < |key| && key[h[1]] <= key[k]
  {
    BagHas(h, n, 1);
    forall k | k in nodes
      ensures 0 <= k < |key| && key[h[1]] <= key[k]
    {
      InBag(h, n, k);
      var i :| 1 <= i <= n && h[i] == k;
      TopIsLeast(h, key, n, i);
    }
  }

  lemma TopReplaced(h: seq<int>, key: seq<int>, n: int, m: int, v: int)
    requires HeapFrom(h, key, n, 1) && 1 <= m <= n && 0 <= v < |key|
    ensures HeapFrom(h[1 := v], key, m, 2)
  {
  }

  lemma BagTop(h: seq<int>, n: nat, v: int)
    requires 1 <= n < |h|
    ensures Bag(h[1 := v], n) == Bag(h, n) - multiset{h[1]} + multiset{v}
  {
    assert h[1..n+1] == [h[1]] + h[2..n+1];
    assert h[1 := v][1..n+1] == [v] + h[2..n+1];
  }

  lemma SetWithout(nodes: set<int>, x: int)
    requires x in nodes
    ensures multiset(nodes) - multiset{x} == multiset(nodes - {x})
  {
  }

  lemma SetWith(nodes: set<int>, x: int)
    requires x !in nodes
    ensures multiset(nodes) + multiset{x} == multiset(nodes + {x})
  {
  }

  /** Only the keys of the queued nodes matter. */
  lemma QueueFrame(h: seq<int>, key: seq<int>, key': seq<int>, n: int, nodes: set<int>)
    requires QueueOf(h, key, n, nodes) && |key'| == |key|
    requires forall k :: k in nodes && 0 <= k < |key| ==> key'[k] == key[k]
    ensures QueueOf(h, key', n, nodes)
  {
    forall i | 1 <= i <= n
      ensures h[i] in nodes
    {
      BagHas(h, n, i);
    }
  }

  /** Arranges the queue for the first time. */
  method BuildHeap(heap: array<int>, heapLen: int, freq: array<int>, depth: array<int>, ghost nodes: set<int>)
    requires heap != freq && heap != depth && freq.Length <= depth.Length && Depths(depth[..])
    requires Queue(heap[..], Keys(freq[..], depth[..]), heapLen) && Bag(heap[..], heapLen) == multiset(nodes)
    modifies heap
    ensures QueueOf(heap[..], Keys(freq[..], depth[..]), heapLen, nodes)
    ensures forall i :: heapLen < i < heap.Length ==> heap[i] == old(heap[i])
  {
    hide Keys, Rearranged;
    ghost var key := Keys(freq[..], depth[..]);
    var n := heapLen / 2;
    while n >= 1
      invariant 0 <= n <= heapLen / 2 && HeapFrom(heap[..], key, heapLen, n + 1)
      invariant Bag(heap[..], heapLen) == multiset(nodes)
      invariant forall i :: heapLen < i < heap.Length ==> heap[i] == old(heap[i])
    {
      ghost var h: seq<int> := heap[..];
      PqDownHeap(heap, heapLen, freq, depth, n);
      BagRearranged(h, heap[..], heapLen);
      BehindKept(h, heap[..], heapLen);
      n := n - 1;
    }
  }

  lemma BehindKept(f: seq<int>, g: seq<int>, n: nat)
    requires Rearranged(f, g, 1, n)
    ensures |f| == |g| && forall i :: n < i < |f| ==> g[i] == f[i]
  {
  }

  /** Takes the least node off the queue. */
  method PqRemove(heap: array<int>, heapLen: int, freq: array<int>, depth: array<int>, ghost nodes: set<int>)
    returns (top: int)
    requires heap != freq && heap != depth && freq.Length <= depth.Length && Depths(depth[..])
    requires 2 <= heapLen && QueueOf(heap[..], Keys(freq[..], depth[..]), heapLen, nodes)
    modifies heap
    ensures top in nodes && 0 <= top < freq.Length
    ensures forall k :: k in nodes ==>
        0 <= k < freq.Length && Keys(freq[..], depth[..])[top] <= Keys(freq[..], depth[..])[k]
    ensures QueueOf(heap[..], Keys(freq[..], depth[..]), heapLen - 1, nodes - {top})
    ensures forall i :: heapLen <= i < heap.Length ==> heap[i] == old(heap[i])
  {
    hide Keys, Rearranged, Bag, HeapFrom;
    ghost var key := Keys(freq[..], depth[..]);
    ghost var h: seq<int> := heap[..];
    LeastOfAll(h, key, heapLen, nodes);
    QueueSize(h, key, heapLen);
    top := heap[1];
    TopReplaced(h, key, heapLen, heapLen - 1, h[heapLen]);
    BagPop(h, heapLen);
    SetWithout(nodes, top);
    heap[1] := heap[heapLen];
    ghost var g := h[1 := h[heapLen]];
    assert heap[..] == g;
    PqDownHeap(heap, heapLen - 1, freq, depth, 1);
    BagRearranged(g, heap[..], heapLen - 1);
    BehindKept(g, heap[..], heapLen - 1);
  }

  lemma QueueSize(h: seq<int>, key: seq<int>, n: int)
    requires HeapFrom(h, key, n, 1)
    ensures 0 <= n < |h| && forall i :: 1 <= i <= n ==> 0 <= h[i] < |key|
  {
  }

  /** Puts a new node in the place of the least one. */
  method PqReplace(heap: array<int>, heapLen: int, freq: array<int>, depth: array<int>, node: int,
                   ghost nodes: set<int>)
    requires heap != freq && heap != depth && freq.Length <= depth.Length && Depths(depth[..])
    requires 1 <= heapLen && QueueOf(heap[..], Keys(freq[..], depth[..]), heapLen, nodes) && 0 <= node < freq.Length
    requires node !in nodes
    modifies heap
    ensures QueueOf(heap[..], Keys(freq[..], depth[..]), heapLen, nodes - {old(heap[1])} + {node})
    ensures forall i :: heapLen < i < heap.Length ==> heap[i] == old(heap[i])
  {
    hide Keys, Rearranged, Bag, HeapFrom;
    ghost var key := Keys(freq[..], depth[..]);
    ghost var h: seq<int> := heap[..];
    LeastOfAll(h, key, heapLen, nodes);
    QueueSize(h, key, heapLen);
    TopReplaced(h, key, heapLen, heapLen, node);
    BagTop(h, heapLen, node);
    SetWithout(nodes, h[1]);
    SetWith(nodes - {h[1]}, node);
    heap[1] := node;
    ghost var g := h[1 := node];
    assert heap[..] == g;
    PqDownHeap(heap, heapLen, freq, depth, 1);
    BagRearranged(g, heap[..], heapLen);
    BehindKept(g, heap[..], heapLen);
  }
}
