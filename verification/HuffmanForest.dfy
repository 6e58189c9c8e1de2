/** The forest a Huffman construction holds between two joins: what one join of the two lightest roots keeps. */
module HuffmanForest {
  import opened Counting
  import opened HuffmanTree

  /** The nodes without a parent among 1..m. */
  ghost function Roots(p: seq<int>, m: nat): set<int>
    requires m < |p|
  {
    set k | 1 <= k <= m && p[k] < 0
  }

  ghost function Children(p: seq<int>, m: nat, t: int): nat
    requires m < |p|
  {
    Count(p[1..m+1], t)
  }

  /** Parents are inner nodes behind their children, and every inner node has exactly two children. */
  ghost predicate Forest(p: seq<int>, m: nat, alpha: nat) {
    && m < |p|
    && (forall k :: 1 <= k <= m && 0 <= p[k] ==> k < p[k] <= m && alpha < p[k])
    && (forall t :: alpha < t <= m ==> Children(p, m, t) == 2)
  }

  /** The weight of a node, whose low byte holds the depth below it. */
  function WeightOf(w: int): int { w / 256 }

  function DepthOf(w: int): int { w % 256 }

  /** Depths grow towards the roots. */
  ghost predicate Deepening(p: seq<int>, wt: seq<int>, m: nat) {
    m < |p| && m < |wt| && forall k :: 1 <= k <= m && 0 <= p[k] <= m ==> DepthOf(wt[k]) < DepthOf(wt[p[k]])
  }

  /** Every root weighs at least l, and is so heavy that its depth follows the Fibonacci numbers. */
  ghost predicate Fibonacci(p: seq<int>, wt: seq<int>, m: nat, l: nat) {
    && m < |p| && m < |wt| && 1 <= l
    && forall k :: 1 <= k <= m && p[k] < 0 ==>
      l <= WeightOf(wt[k]) && Fib(DepthOf(wt[k]) + 1) <= l && Fib(DepthOf(wt[k]) + 2) <= WeightOf(wt[k])
  }

  /** What the roots weigh together. */
  ghost function RootSum(p: seq<int>, wt: seq<int>, m: nat): int
    requires m < |p| && m < |wt|
  {
    if m == 0 then 0 else RootSum(p, wt, m - 1) + (if p[m] < 0 then WeightOf(wt[m]) else 0)
  }

  ghost predicate Growing(p: seq<int>, wt: seq<int>, m: nat, alpha: nat, total: int, l: nat) {
    && Forest(p, m, alpha) && Deepening(p, wt, m) && Fibonacci(p, wt, m, l) && RootSum(p, wt, m) == total
  }

  // ---------- one join ----------

  function Joined(p: seq<int>, m: nat, x: int, y: int): (q: seq<int>)
    requires m + 1 < |p| && 1 <= x <= m && 1 <= y <= m
    ensures |q| == |p|
  {
    p[x := m + 1][y := m + 1][m + 1 := -1]
  }

  /** ADDWEIGHTS: the weights add up, the depth is one more than the deeper one's. */
  function AddWeights(v: int, w: int): int {
    (WeightOf(v) + WeightOf(w)) * 256 + 1 + (if DepthOf(v) > DepthOf(w) then DepthOf(v) else DepthOf(w))
  }

  lemma AddWeightsParts(v: int, w: int)
    requires DepthOf(v) < 255 && DepthOf(w) < 255
    ensures WeightOf(AddWeights(v, w)) == WeightOf(v) + WeightOf(w)
    ensures DepthOf(AddWeights(v, w)) == 1 + (if DepthOf(v) > DepthOf(w) then DepthOf(v) else DepthOf(w))
  {
  }

  lemma {:induction false} CountUpdate(s: seq<int>, i: nat, v: int, c: int)
    requires i < |s|
    ensures Count(s[i := v], c) + (if s[i] == c then 1 else 0) == Count(s, c) + (if v == c then 1 else 0)
  {
    if i < |s| - 1 {
      CountUpdate(s[..|s|-1], i, v, c);
      assert s[i := v][..|s|-1] == s[..|s|-1][i := v];
    } else {
      assert s[i := v][..|s|-1] == s[..|s|-1];
    }
  }

  lemma JoinCounts(p: seq<int>, m: nat, x: int, y: int, t: int)
    requires m + 1 < |p| && 1 <= x <= m && 1 <= y <= m && x != y && p[x] < 0 && p[y] < 0 && 0 <= t
    ensures Count(Joined(p, m, x, y)[1..m+2], t) == Count(p[1..m+1], t) + (if t == m + 1 then 2 else 0)
  {
    var s: seq<int> := p[1..m+1];
    var u := s[x-1 := m + 1];
    CountUpdate(s, x - 1, m + 1, t);
    CountUpdate(u, y - 1, m + 1, t);
    var v := u[y-1 := m + 1];
    var q := Joined(p, m, x, y)[1..m+2];
    assert |q| == m + 1 && q[m] == -1;
    forall i | 0 <= i < m
      ensures q[i] == v[i]
    {
    }
    assert q[..m] == v;
  }

  lemma {:induction false} NoParentYet(s: seq<int>, m: nat, t: int)
    requires forall i :: 0 <= i < |s| ==> s[i] <= m
    requires m < t
    ensures Count(s, t) == 0
  {
    if s != [] {
      NoParentYet(s[..|s|-1], m, t);
    }
  }

  lemma JoinForest(p: seq<int>, m: nat, alpha: nat, x: int, y: int)
    requires Forest(p, m, alpha) && alpha <= m && m + 1 < |p|
    requires 1 <= x <= m && 1 <= y <= m && x != y && p[x] < 0 && p[y] < 0
    ensures Forest(Joined(p, m, x, y), m + 1, alpha)
  {
    hide Count;
    var q := Joined(p, m, x, y);
    var n := m + 1;
    forall t | alpha < t <= n
      ensures Children(q, n, t) == 2
    {
      JoinCounts(p, m, x, y, t);
      assert t <= m ==> Children(p, m, t) == 2;
      if t == m + 1 {
        NoParentYet(p[1..m+1], m, t);
      }
    }
  }

  lemma JoinRoots(p: seq<int>, m: nat, x: int, y: int)
    requires m + 1 < |p| && x in Roots(p, m) && y in Roots(p, m) && x != y
    ensures Roots(Joined(p, m, x, y), m + 1) == Roots(p, m) - {x} - {y} + {m + 1}
  {
  }

  lemma JoinDeepening(p: seq<int>, wt: seq<int>, m: nat, alpha: nat, x: int, y: int)
    requires Forest(p, m, alpha) && Deepening(p, wt, m) && m + 1 < |p| && m + 1 < |wt|
    requires 1 <= x <= m && 1 <= y <= m && x != y && p[x] < 0 && p[y] < 0
    requires DepthOf(wt[x]) < 255 && DepthOf(wt[y]) < 255
    ensures Deepening(Joined(p, m, x, y), wt[m + 1 := AddWeights(wt[x], wt[y])], m + 1)
  {
    hide Count, AddWeights;
    AddWeightsParts(wt[x], wt[y]);
  }

  /** The two lightest roots joined are heavy enough for their depth, and nothing left is lighter than
      either of them. */
  lemma JoinFibonacci(p: seq<int>, wt: seq<int>, m: nat, l: nat, x: int, y: int)
    requires Fibonacci(p, wt, m, l) && m + 1 < |p| && m + 1 < |wt|
    requires 1 <= x <= m && 1 <= y <= m && x != y && p[x] < 0 && p[y] < 0
    requires DepthOf(wt[x]) < 255 && DepthOf(wt[y]) < 255
    requires wt[x] <= wt[y] && forall k :: k in Roots(p, m) && k != x ==> wt[y] <= wt[k]
    ensures 1 <= WeightOf(wt[y])
    ensures Fibonacci(Joined(p, m, x, y), wt[m + 1 := AddWeights(wt[x], wt[y])], m + 1, WeightOf(wt[y]))
  {
    hide Fib, AddWeights;
    AddWeightsParts(wt[x], wt[y]);
    FibStep(DepthOf(wt[x]) + 1);
    FibStep(DepthOf(wt[y]) + 1);
    var q := Joined(p, m, x, y);
    forall k | 1 <= k <= m && q[k] < 0
      ensures WeightOf(wt[y]) <= WeightOf(wt[k])
    {
      assert k in Roots(p, m);
    }
  }

  lemma FibStep(n: nat)
    ensures Fib(n + 2) == Fib(n) + Fib(n + 1)
  {
  }

  lemma {:induction false} RootSumUpdate(p: seq<int>, wt: seq<int>, m: nat, x: int, v: int)
    requires m < |p| && m < |wt| && 1 <= x <= m && p[x] < 0 <= v
    ensures RootSum(p[x := v], wt, m) == RootSum(p, wt, m) - WeightOf(wt[x])
  {
    if x < m {
      RootSumUpdate(p, wt, m - 1, x, v);
    } else {
      RootSumFrame(p, p[x := v], wt, wt, m - 1);
    }
  }

  lemma {:induction false} RootSumFrame(p: seq<int>, q: seq<int>, wt: seq<int>, vt: seq<int>, m: nat)
    requires m < |p| && m < |wt| && m < |q| && m < |vt|
    requires forall k :: 1 <= k <= m ==> p[k] == q[k] && wt[k] == vt[k]
    ensures RootSum(p, wt, m) == RootSum(q, vt, m)
  {
    if m > 0 {
      RootSumFrame(p, q, wt, vt, m - 1);
    }
  }

  lemma JoinRootSum(p: seq<int>, wt: seq<int>, m: nat, x: int, y: int)
    requires m + 1 < |p| && m + 1 < |wt|
    requires 1 <= x <= m && 1 <= y <= m && x != y && p[x] < 0 && p[y] < 0
    requires DepthOf(wt[x]) < 255 && DepthOf(wt[y]) < 255
    ensures RootSum(Joined(p, m, x, y), wt[m + 1 := AddWeights(wt[x], wt[y])], m + 1) == RootSum(p, wt, m)
  {
    hide AddWeights;
    AddWeightsParts(wt[x], wt[y]);
    RootSumUpdate(p, wt, m, x, m + 1);
    RootSumUpdate(p[x := m + 1], wt, m, y, m + 1);
    var q := Joined(p, m, x, y);
    var vt := wt[m + 1 := AddWeights(wt[x], wt[y])];
    RootSumFrame(p[x := m + 1][y := m + 1], q, wt, vt, m);
  }

  lemma {:induction false} RootSumAtLeast(p: seq<int>, wt: seq<int>, m: nat, x: int)
    requires m < |p| && m < |wt| && 1 <= x <= m && p[x] < 0
    requires forall k :: 1 <= k <= m && p[k] < 0 ==> 0 <= WeightOf(wt[k])
    ensures WeightOf(wt[x]) <= RootSum(p, wt, m)
  {
    if x < m {
      RootSumAtLeast(p, wt, m - 1, x);
    } else {
      RootSumNonNegative(p, wt, m - 1);
    }
  }

  lemma {:induction false} RootSumNonNegative(p: seq<int>, wt: seq<int>, m: nat)
    requires m < |p| && m < |wt|
    requires forall k :: 1 <= k <= m && p[k] < 0 ==> 0 <= WeightOf(wt[k])
    ensures 0 <= RootSum(p, wt, m)
  {
    if m > 0 {
      RootSumNonNegative(p, wt, m - 1);
    }
  }

  /** With less than 2^23 in all, no depth comes near the eight bits it is kept in. */
  lemma ShallowRoot(p: seq<int>, wt: seq<int>, m: nat, alpha: nat, total: int, l: nat, x: int)
    requires Growing(p, wt, m, alpha, total, l) && x in Roots(p, m) && total < 0x80_0000
    ensures DepthOf(wt[x]) < 33
  {
    hide Fib, Count, Forest, Deepening;
    RootSumAtLeast(p, wt, m, x);
    FibValues();
    if DepthOf(wt[x]) >= 33 {
      FibMonotone(35, DepthOf(wt[x]) + 2);
    }
  }

  /** Joining the two lightest roots keeps everything. */
  lemma JoinGrows(p: seq<int>, wt: seq<int>, m: nat, alpha: nat, total: int, l: nat, x: int, y: int)
    requires Growing(p, wt, m, alpha, total, l) && total < 0x80_0000
    requires alpha <= m && m + 1 < |p| && m + 1 < |wt|
    requires x in Roots(p, m) && y in Roots(p, m) && x != y
    requires wt[x] <= wt[y] && forall k :: k in Roots(p, m) && k != x ==> wt[y] <= wt[k]
    ensures DepthOf(wt[x]) < 33 && DepthOf(wt[y]) < 33 && 1 <= WeightOf(wt[y])
    ensures Growing(Joined(p, m, x, y), wt[m + 1 := AddWeights(wt[x], wt[y])], m + 1, alpha, total, WeightOf(wt[y]))
  {
    hide Fib, Count, AddWeights, Joined, Fibonacci, Deepening, Forest, RootSum, WeightOf, DepthOf;
    ShallowRoot(p, wt, m, alpha, total, l, x);
    ShallowRoot(p, wt, m, alpha, total, l, y);
    JoinForest(p, m, alpha, x, y);
    JoinDeepening(p, wt, m, alpha, x, y);
    JoinFibonacci(p, wt, m, l, x, y);
    JoinRootSum(p, wt, m, x, y);
  }

  // ---------- the finished tree ----------

  /** A single root makes the forest a tree. */
  lemma OneRoot(p: seq<int>, m: nat, alpha: nat)
    requires Forest(p, m, alpha) && 2 <= alpha < m && Roots(p, m) == {m}
    ensures Tree(p, m, alpha)
  {
    hide Count;
    assert m in Roots(p, m);
    forall k | 1 <= k < m
      ensures k < p[k] <= m && alpha < p[k]
    {
      assert k !in Roots(p, m);
    }
    forall t | alpha < t <= m
      ensures Count(p[1..m], t) == 2
    {
      assert Children(p, m, t) == 2;
      CountDrop(p[1..m+1], t);
      assert p[1..m+1][..m-1] == p[1..m];
    }
  }

  lemma CountDrop(s: seq<int>, t: int)
    requires s != [] && s[|s|-1] != t
    ensures Count(s, t) == Count(s[..|s|-1], t)
  {
  }

  /** The recorded depth of the root bounds every path to it. */
  lemma {:induction false} DepthBound(p: seq<int>, wt: seq<int>, m: nat, k: nat)
    requires Rooted(p, m) && Deepening(p, wt, m) && 1 <= k <= m
    ensures Depth(p, m, k) <= DepthOf(wt[m]) - DepthOf(wt[k])
    decreases m - k
  {
    if k < m {
      DepthBound(p, wt, m, p[k]);
    }
  }

  /** A tree deeper than twelve weighs more than twice the largest alphabet. */
  lemma DeepIsHeavy(p: seq<int>, wt: seq<int>, m: nat, alpha: nat, total: int, l: nat, k: nat)
    requires Growing(p, wt, m, alpha, total, l) && Tree(p, m, alpha) && p[m] < 0 && 1 <= k <= m
    ensures Depth(p, m, k) > 12 ==> total >= 610
  {
    hide Fib, Count, Forest;
    if Depth(p, m, k) > 12 {
      DepthBound(p, wt, m, k);
      FibValues();
      FibMonotone(15, DepthOf(wt[m]) + 2);
      RootSumAtLeast(p, wt, m, m);
    }
  }
}
