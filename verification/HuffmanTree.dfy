/** Trees given by parent numbers: why the leaf depths of a binary tree have Kraft sum one, and why a tree
    built by joining the two lightest nodes is no deeper than its weight allows. */
module HuffmanTree {
  import opened Counting
  import opened Bits
  import opened Canonical

  // ---------- Kraft sum of a parent table ----------

  /** Nodes 1..n form one tree with root n and leaves 1..alpha; every inner node has two children. */
  ghost predicate Tree(p: seq<int>, n: nat, alpha: nat) {
    && 2 <= alpha < n < |p|
    && (forall k :: 1 <= k < n ==> k < p[k] <= n && alpha < p[k])
    && (forall t :: alpha < t <= n ==> Count(p[1..n], t) == 2)
  }

  /** Steps from node k to the root. */
  function Depth(p: seq<int>, n: nat, k: nat): (d: nat)
    requires 1 <= k <= n < |p| && forall i :: 1 <= i < n ==> i < p[i] <= n
    ensures d <= n - k && (k < n ==> d >= 1)
    decreases n - k
  {
    if k == n then 0 else 1 + Depth(p, n, p[k])
  }

  /** Sum of 2^(e - depth) over the nodes 1..m whose parent lies beyond t. */
  ghost function Frontier(p: seq<int>, n: nat, t: nat, e: nat, m: nat): nat
    requires m <= n < |p| && n <= e && forall i :: 1 <= i < n ==> i < p[i] <= n
  {
    if m == 0 then 0
    else Frontier(p, n, t, e, m - 1) + (if m == n || p[m] > t then Pow2(e - Depth(p, n, m)) else 0)
  }

  /** Lowering t by one trades node t for its children. */
  lemma {:induction false} FrontierGap(p: seq<int>, n: nat, t: nat, e: nat, m: nat)
    requires Rooted(p, n) && n <= e && 1 <= t <= n && m < t
    ensures e > Depth(p, n, t)
    ensures Frontier(p, n, t - 1, e, m) ==
            Frontier(p, n, t, e, m) + Count(p[1..m+1], t) * Pow2(e - Depth(p, n, t) - 1)
    decreases m
  {
    if m > 0 {
      FrontierGap(p, n, t, e, m - 1);
      assert p[1..m+1][..m-1] == p[1..m] && p[1..m+1][m-1] == p[m];
      if p[m] == t {
        assert Depth(p, n, m) == 1 + Depth(p, n, t);
        OneMore(Count(p[1..m], t), Pow2(e - Depth(p, n, t) - 1));
      }
    }
  }

  lemma OneMore(c: nat, q: nat)
    ensures (c + 1) * q == c * q + q
  {
  }

  ghost predicate Rooted(p: seq<int>, n: nat) {
    1 <= n < |p| && forall k :: 1 <= k < n ==> k < p[k] <= n
  }

  lemma FrontierStep(p: seq<int>, n: nat, alpha: nat, t: nat, e: nat)
    requires Tree(p, n, alpha) && n <= e && alpha < t <= n
    ensures Frontier(p, n, t - 1, e, t - 1) == Frontier(p, n, t, e, t)
  {
    hide Frontier, Count, Depth, Pow2;
    FrontierGap(p, n, t, e, t - 1);
    NoneAfter(p, n, t, n);
    FrontierOpen(p, n, t, e);
    Pow2Double(e - Depth(p, n, t));
  }

  lemma FrontierOpen(p: seq<int>, n: nat, t: nat, e: nat)
    requires Rooted(p, n) && n <= e && 1 <= t <= n
    ensures Frontier(p, n, t, e, t) == Frontier(p, n, t, e, t - 1) + Pow2(e - Depth(p, n, t))
  {
  }

  lemma Pow2Double(k: nat)
    requires k >= 1
    ensures Pow2(k) == 2 * Pow2(k - 1)
  {
  }

  /** All children of t come before it. */
  lemma {:induction false} NoneAfter(p: seq<int>, n: nat, t: nat, m: nat)
    requires Rooted(p, n) && 1 <= t <= m <= n
    ensures Count(p[1..m], t) == Count(p[1..t], t)
    decreases m
  {
    if m > t {
      NoneAfter(p, n, t, m - 1);
      assert p[1..m][..m-2] == p[1..m-1] && p[1..m][m-2] == p[m-1];
    }
  }

  lemma {:induction false} FrontierAll(p: seq<int>, n: nat, alpha: nat, t: nat, e: nat)
    requires Tree(p, n, alpha) && n <= e && alpha <= t <= n
    ensures Frontier(p, n, t, e, t) == Pow2(e)
    decreases n - t
  {
    if t == n {
      FrontierRoot(p, n, e, n - 1);
    } else {
      FrontierAll(p, n, alpha, t + 1, e);
      NoneAfter(p, n, t + 1, n);
      FrontierStep(p, n, alpha, t + 1, e);
    }
  }

  lemma {:induction false} FrontierRoot(p: seq<int>, n: nat, e: nat, m: nat)
    requires Rooted(p, n) && n <= e && m < n
    ensures Frontier(p, n, n, e, m) == 0
  {
    if m > 0 {
      FrontierRoot(p, n, e, m - 1);
    }
  }

  /** The depths of the leaves 1..m. */
  ghost function Depths(p: seq<int>, n: nat, m: nat): (len: seq<int>)
    requires Rooted(p, n) && m <= n
    ensures |len| == m
  {
    seq(m, i requires 0 <= i < m => Depth(p, n, i + 1))
  }

  lemma {:induction false} FrontierIsKraft(p: seq<int>, n: nat, alpha: nat, e: nat, m: nat)
    requires Tree(p, n, alpha) && n <= e && m <= alpha
    ensures Frontier(p, n, alpha, e, m) == Kraft(Depths(p, n, m), e)
  {
    if m > 0 {
      FrontierIsKraft(p, n, alpha, e, m - 1);
      assert Depths(p, n, m)[..m-1] == Depths(p, n, m - 1);
    }
  }

  lemma {:induction false} KraftDown(len: seq<int>, l: nat, e: nat)
    requires l <= e && (forall i :: 0 <= i < |len| ==> 0 <= len[i] <= l) && Kraft(len, e) == Pow2(e)
    ensures Kraft(len, l) == Pow2(l)
    decreases e
  {
    if l < e {
      KraftStep(len, e - 1);
      NoCount(len, e);
      KraftDown(len, l, e - 1);
    }
  }

  /** The leaf depths of a binary tree no deeper than l fill 2^l exactly. */
  lemma TreeKraft(p: seq<int>, n: nat, alpha: nat, l: nat)
    requires Tree(p, n, alpha) && forall i :: 1 <= i <= alpha ==> Depth(p, n, i) <= l
    ensures Kraft(Depths(p, n, alpha), l) == Pow2(l)
  {
    var e := n + l;
    FrontierAll(p, n, alpha, alpha, e);
    FrontierIsKraft(p, n, alpha, e, alpha);
    KraftDown(Depths(p, n, alpha), l, e);
  }

  // ---------- Fibonacci numbers ----------

  function Fib(n: nat): nat {
    if n < 2 then n else Fib(n - 1) + Fib(n - 2)
  }

  lemma {:induction false} FibMonotone(a: nat, b: nat)
    requires a <= b
    ensures Fib(a) <= Fib(b)
    decreases b - a
  {
    if a < b {
      FibMonotone(a, b - 1);
    }
  }

  /** The values the depth bounds turn on. */
  lemma FibValues()
    ensures Fib(15) == 610 && Fib(35) == 9227465
  {
    assert Fib(10) == 55 && Fib(11) == 89;
    assert Fib(12) == 144 && Fib(13) == 233 && Fib(14) == 377 && Fib(15) == 610;
    assert Fib(16) == 987 && Fib(17) == 1597 && Fib(18) == 2584 && Fib(19) == 4181 && Fib(20) == 6765;
    assert Fib(21) == 10946 && Fib(22) == 17711 && Fib(23) == 28657 && Fib(24) == 46368 && Fib(25) == 75025;
    assert Fib(26) == 121393 && Fib(27) == 196418 && Fib(28) == 317811 && Fib(29) == 514229 && Fib(30) == 832040;
    assert Fib(31) == 1346269 && Fib(32) == 2178309 && Fib(33) == 3524578 && Fib(34) == 5702887;
  }
}
