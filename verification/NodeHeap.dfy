/** The heap of tree nodes that Huffman construction draws its two lightest nodes from. Entries run from 1;
    entry 0 is a sentinel of weight zero. */
module NodeHeap {
  import opened BucketSort

  /** The heap entries 1..n. */
  ghost function Bag(h: seq<int>, n: nat): multiset<int>
    requires n < |h|
  {
    multiset(h[1..n+1])
  }

  lemma BagRearranged(f: seq<int>, h: seq<int>, n: nat)
    requires n < |f| && Rearranged(f, h, 1, n)
    ensures Bag(f, n) == Bag(h, n)
  {
    if n >= 1 {
      Sections(f, 1, n);
      Sections(h, 1, n);
      assert f[..1] == h[..1] && f[n+1..] == h[n+1..];
      assert Bag(f, n) == multiset(f) - multiset(f[..1]) - multiset(f[n+1..]);
    }
  }

  lemma BagPush(h: seq<int>, n: nat, k: int)
    requires n + 1 < |h|
    ensures Bag(h[n + 1 := k], n + 1) == Bag(h, n) + multiset{k}
  {
    assert h[n + 1 := k][1..n+2] == h[1..n+1] + [k];
  }

  lemma LastOff(h: seq<int>, a: nat, n: nat)
    requires a <= n < |h|
    ensures h[a..n+1] == h[a..n] + [h[n]]
  {
  }

  lemma BagPop(h: seq<int>, n: nat)
    requires 1 <= n < |h|
    ensures Bag(h[1 := h[n]], n - 1) == Bag(h, n) - multiset{h[1]}
  {
    var g := h[1 := h[n]];
    assert h[1..n+1] == [h[1]] + h[2..n+1];
    if n >= 2 {
      LastOff(h, 2, n);
      assert g[1] == h[n] && g[2..n] == h[2..n];
      assert g[1..n] == [g[1]] + g[2..n];
    } else {
      assert h[2..n+1] == [] && g[1..n] == [];
    }
  }

  lemma InBag(h: seq<int>, n: nat, x: int)
    requires n < |h| && x in Bag(h, n)
    ensures exists i :: 1 <= i <= n && h[i] == x
  {
    assert x in h[1..n+1];
    var j :| 0 <= j < n && h[1..n+1][j] == x;
    assert h[j + 1] == x;
  }

  lemma BagHas(h: seq<int>, n: nat, i: int)
    requires 1 <= i <= n < |h|
    ensures h[i] in Bag(h, n)
  {
    assert h[1..n+1][i-1] == h[i];
  }

  ghost predicate IsHeap(h: seq<int>, wt: seq<int>, n: int) {
    && 0 <= n < |h| && 0 < |wt| && h[0] == 0 && wt[0] == 0
    && (forall i :: 0 <= i <= n ==> 0 <= h[i] < |wt|)
    && (forall i :: 1 <= i <= n ==> wt[h[i]] >= 1)
  }

  /** Every entry but the one at skip weighs at least as much as the entry above it. */
  ghost predicate OrderedBut(h: seq<int>, wt: seq<int>, n: int, skip: int)
    requires IsHeap(h, wt, n)
  {
    forall i :: 2 <= i <= n && i != skip ==> wt[h[i/2]] <= wt[h[i]]
  }

  /** Only the entries below z may be lighter than it. */
  ghost predicate OrderedAbove(h: seq<int>, wt: seq<int>, n: int, z: int)
    requires IsHeap(h, wt, n)
  {
    forall i :: 2 <= i <= n && i / 2 != z ==> wt[h[i/2]] <= wt[h[i]]
  }

  /** Whatever stands at z, the entries below it are no lighter than the one above it. */
  ghost predicate Bridges(h: seq<int>, wt: seq<int>, n: int, z: int)
    requires IsHeap(h, wt, n)
  {
    z >= 2 ==> z <= n && forall i :: 2 <= i <= n && i / 2 == z ==> wt[h[z/2]] <= wt[h[i]]
  }

  ghost predicate Ordered(h: seq<int>, wt: seq<int>, n: int)
    requires IsHeap(h, wt, n)
  {
    forall i :: 2 <= i <= n ==> wt[h[i/2]] <= wt[h[i]]
  }

  lemma {:induction false} RootIsLightest(h: seq<int>, wt: seq<int>, n: int, i: int)
    requires IsHeap(h, wt, n) && Ordered(h, wt, n) && 1 <= i <= n
    ensures wt[h[1]] <= wt[h[i]]
    decreases i
  {
    if i > 1 {
      RootIsLightest(h, wt, n, i / 2);
    }
  }

  /** Swapping an entry with the heavier one above it moves the fault up. */
  lemma UpStep(h: seq<int>, wt: seq<int>, n: int, z: int)
    requires IsHeap(h, wt, n) && 2 <= z <= n && OrderedBut(h, wt, n, z) && Bridges(h, wt, n, z)
    requires wt[h[z]] < wt[h[z/2]]
    ensures IsHeap(Exch(h, z, z/2), wt, n)
    ensures OrderedBut(Exch(h, z, z/2), wt, n, z/2) && Bridges(Exch(h, z, z/2), wt, n, z/2)
  {
    var g := Exch(h, z, z/2);
    forall i | 2 <= i <= n && i != z/2
      ensures wt[g[i/2]] <= wt[g[i]]
    {
      if i != z && i / 2 != z && i / 2 != z / 2 {
        assert wt[h[i/2]] <= wt[h[i]];
      }
    }
    if z / 2 >= 2 {
      assert wt[h[z/2/2]] <= wt[h[z/2]];
      forall i | 2 <= i <= n && i / 2 == z / 2
        ensures wt[g[z/2/2]] <= wt[g[i]]
      {
        if i != z {
          assert wt[h[i/2]] <= wt[h[i]];
        }
      }
    }
  }

  /** Swapping an entry with the lighter of the two below it moves the fault down. */
  lemma DownStep(h: seq<int>, wt: seq<int>, n: int, z: int, y: int)
    requires IsHeap(h, wt, n) && 1 <= z && y / 2 == z && 2 <= y <= n && OrderedAbove(h, wt, n, z)
    requires Bridges(h, wt, n, z)
    requires wt[h[y]] <= wt[h[z]] && forall i :: 2 <= i <= n && i / 2 == z ==> wt[h[y]] <= wt[h[i]]
    ensures IsHeap(Exch(h, z, y), wt, n)
    ensures OrderedAbove(Exch(h, z, y), wt, n, y) && Bridges(Exch(h, z, y), wt, n, y)
  {
    var g := Exch(h, z, y);
    forall i | 2 <= i <= n && i / 2 != y
      ensures wt[g[i/2]] <= wt[g[i]]
    {
      if i != z && i / 2 != z {
        assert wt[h[i/2]] <= wt[h[i]];
      }
    }
    forall i | 2 <= i <= n && i / 2 == y
      ensures wt[g[y/2]] <= wt[g[i]]
    {
      assert wt[h[i/2]] <= wt[h[i]];
    }
  }

  lemma UpDone(h: seq<int>, wt: seq<int>, n: int, z: int)
    requires IsHeap(h, wt, n) && 1 <= z <= n && OrderedBut(h, wt, n, z)
    requires z >= 2 ==> wt[h[z/2]] <= wt[h[z]]
    ensures Ordered(h, wt, n)
  {
  }

  lemma DownDone(h: seq<int>, wt: seq<int>, n: int, z: int)
    requires IsHeap(h, wt, n) && 1 <= z <= n && OrderedAbove(h, wt, n, z)
    requires forall i :: 2 <= i <= n && i / 2 == z ==> wt[h[z]] <= wt[h[i]]
    ensures Ordered(h, wt, n)
  {
  }

  /** UPHEAP: lets the new last entry rise. */
  method UpHeap(heap: array<int>, weight: array<int>, z: int, ghost f0: seq<int>)
    requires heap != weight && 1 <= z && IsHeap(heap[..], weight[..], z)
    requires OrderedBut(heap[..], weight[..], z, z) && Rearranged(f0, heap[..], 1, z)
    modifies heap
    ensures IsHeap(heap[..], weight[..], z) && Ordered(heap[..], weight[..], z)
    ensures Rearranged(f0, heap[..], 1, z)
  {
    hide Rearranged, OrderedBut, Bridges, Ordered, Exch;
    var zz := z;
    var tmp := heap[zz];
    ghost var h: seq<int>, wt := heap[..], weight[..];
    NoBridge(h, wt, z);
    while weight[tmp] < weight[heap[zz / 2]]
      invariant 1 <= zz <= z && heap.Length == |h| && IsHeap(h, wt, z) && h[zz] == tmp
      invariant forall k :: 0 <= k < |h| && k != zz ==> heap[k] == h[k]
      invariant OrderedBut(h, wt, z, zz) && Bridges(h, wt, z, zz) && Rearranged(f0, h, 1, z)
      decreases zz
    {
      UpStep(h, wt, z, zz);
      ExchRearranges(f0, h, 1, z, zz, zz / 2);
      ExchAt(h, zz, zz / 2);
      h := Exch(h, zz, zz / 2);
      heap[zz] := heap[zz / 2];
      zz := zz / 2;
    }
    UpDone(h, wt, z, zz);
    heap[zz] := tmp;
    assert heap[..] == h;
  }

  lemma NoBridge(h: seq<int>, wt: seq<int>, n: int)
    requires IsHeap(h, wt, n) && 1 <= n
    ensures Bridges(h, wt, n, n) && Bridges(h, wt, n, 1)
  {
  }

  lemma ExchAt(h: seq<int>, i: int, j: int)
    requires 0 <= i < |h| && 0 <= j < |h|
    ensures |Exch(h, i, j)| == |h|
    ensures forall k :: 0 <= k < |h| ==> Exch(h, i, j)[k] == if k == i then h[j] else if k == j then h[i] else h[k]
  {
  }

  /** DOWNHEAP from the root: lets a misplaced entry sink. */
  method DownHeap(heap: array<int>, weight: array<int>, n: int, ghost f0: seq<int>)
    requires heap != weight && 1 <= n && IsHeap(heap[..], weight[..], n)
    requires OrderedAbove(heap[..], weight[..], n, 1) && Rearranged(f0, heap[..], 1, n)
    modifies heap
    ensures IsHeap(heap[..], weight[..], n) && Ordered(heap[..], weight[..], n)
    ensures Rearranged(f0, heap[..], 1, n)
  {
    hide Rearranged, OrderedAbove, Bridges, Ordered, Exch;
    var zz := 1;
    var tmp := heap[zz];
    ghost var h: seq<int>, wt := heap[..], weight[..];
    NoBridge(h, wt, n);
    while true
      invariant 1 <= zz <= n && heap.Length == |h| && IsHeap(h, wt, n) && h[zz] == tmp
      invariant forall k :: 0 <= k < |h| && k != zz ==> heap[k] == h[k]
      invariant OrderedAbove(h, wt, n, zz) && Bridges(h, wt, n, zz) && Rearranged(f0, h, 1, n)
      decreases n - zz
    {
      var yy := zz * 2;
      if yy > n {
        DownDone(h, wt, n, zz);
        break;
      }
      if yy < n && weight[heap[yy + 1]] < weight[heap[yy]] {
        yy := yy + 1;
      }
      LighterChild(h, wt, n, zz, yy);
      if weight[tmp] < weight[heap[yy]] {
        DownDone(h, wt, n, zz);
        break;
      }
      DownStep(h, wt, n, zz, yy);
      ExchRearranges(f0, h, 1, n, zz, yy);
      ExchAt(h, zz, yy);
      h := Exch(h, zz, yy);
      heap[zz] := heap[yy];
      zz := yy;
    }
    heap[zz] := tmp;
    assert heap[..] == h;
  }

  lemma LighterChild(h: seq<int>, wt: seq<int>, n: int, z: int, y: int)
    requires IsHeap(h, wt, n) && 1 <= z && 2 * z <= n
    requires y == if 2 * z < n && wt[h[2 * z + 1]] < wt[h[2 * z]] then 2 * z + 1 else 2 * z
    ensures 2 <= y <= n && y / 2 == z
    ensures forall i :: 2 <= i <= n && i / 2 == z ==> wt[h[y]] <= wt[h[i]]
  {
    forall i | 2 <= i <= n && i / 2 == z
      ensures i == 2 * z || i == 2 * z + 1
    {
    }
  }
}
