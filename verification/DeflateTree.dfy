/** The Huffman tree deflate builds, as the list of its nodes from the root on: every node stands behind its
    father. What joining the two least nodes keeps, and what clamping the depths does to the Kraft sum. */
module DeflateTree {
  import opened Counting
  import opened Canonical
  import opened DeflateCodes

  // ---------- building ----------

  /** The nodes made so far are those in the list and the live ones, which have no father yet. */
  ghost predicate Members(list: seq<int>, live: set<int>, leaves: set<int>, elems: int, node: int) {
    && (forall i, j :: 0 <= i < j < |list| ==> list[i] != list[j])
    && (forall i :: 0 <= i < |list| ==> list[i] !in live && (list[i] in leaves || elems <= list[i] < node))
    && (forall x :: x in live ==> x in leaves || elems <= x < node)
    && (forall x :: x in leaves || elems <= x < node ==> x in live || x in list)
    && (forall x :: x in leaves ==> 0 <= x < elems)
  }

  /** Every listed node's father is alive or stands before it; every father has two sons. */
  ghost predicate Fathered(list: seq<int>, dads: seq<int>, live: set<int>, elems: int, node: int) {
    && |list| == |dads|
    && (forall i :: 0 <= i < |list| ==> elems <= dads[i] < node && (dads[i] in live || dads[i] in list[..i]))
    && (forall t :: elems <= t < node ==> Count(dads, t) == 2)
  }

  /** The list runs from frequent to rare, and nothing alive is rarer. */
  ghost predicate ByFreq(list: seq<int>, live: set<int>, freq: seq<int>) {
    && (forall i :: 0 <= i < |list| ==> 0 <= list[i] < |freq|)
    && (forall x :: x in live ==> 0 <= x < |freq| && 0 <= freq[x])
    && (forall i, j :: 0 <= i < j < |list| ==> freq[list[i]] >= freq[list[j]])
    && (forall x, i :: x in live && 0 <= i < |list| ==> freq[x] >= freq[list[i]])
  }

  /** Brothers stand side by side, and their father has their joint frequency. */
  ghost predicate Paired(list: seq<int>, dads: seq<int>, freq: seq<int>) {
    && |list| == |dads| && |list| % 2 == 0
    && forall i :: 0 <= i < |list| && i % 2 == 0 ==> Brothers(list, dads, freq, i)
  }

  ghost predicate Brothers(list: seq<int>, dads: seq<int>, freq: seq<int>, i: nat)
    requires |list| == |dads|
  {
    && i + 1 < |list| && 0 <= list[i] < |freq| && 0 <= list[i + 1] < |freq|
    && 0 <= dads[i] == dads[i + 1] < |freq| && freq[dads[i]] == freq[list[i]] + freq[list[i + 1]]
  }

  lemma JoinMembers(list: seq<int>, live: set<int>, leaves: set<int>, elems: int, node: int, x: int, y: int)
    requires Members(list, live, leaves, elems, node) && x in live && y in live && x != y && elems <= node
    ensures Members([y, x] + list, live - {x} - {y} + {node}, leaves, elems, node + 1)
  {
    var l := [y, x] + list;
    forall z | z in leaves || elems <= z < node + 1
      ensures z in live - {x} - {y} + {node} || z in l
    {
      if z == x {
        assert l[1] == z;
      } else if z == y {
        assert l[0] == z;
      } else if z != node && z in list {
        assert z in l;
      }
    }
  }

  lemma CountPair(v: int, s: seq<int>, t: int)
    ensures Count([v, v] + s, t) == Count(s, t) + (if t == v then 2 else 0)
  {
    CountConcat([v, v], s, t);
    assert [v, v][..1] == [v] && [v][..0] == [];
  }

  lemma JoinFathered(list: seq<int>, dads: seq<int>, live: set<int>, leaves: set<int>, elems: int, node: int, x: int,
                     y: int)
    requires Fathered(list, dads, live, elems, node) && x in live && y in live && elems <= node
    ensures Fathered([y, x] + list, [node, node] + dads, live - {x} - {y} + {node}, elems, node + 1)
  {
    hide Count;
    var l, d := [y, x] + list, [node, node] + dads;
    forall i | 0 <= i < |l|
      ensures elems <= d[i] < node + 1 && (d[i] in live - {x} - {y} + {node} || d[i] in l[..i])
    {
      if i >= 2 {
        assert d[i] == dads[i - 2] && l[..i] == [y, x] + list[..i - 2];
        if d[i] == x {
          assert l[..i][1] == x;
        } else if d[i] == y {
          assert l[..i][0] == y;
        }
      }
    }
    forall t | elems <= t < node + 1
      ensures Count(d, t) == 2
    {
      CountPair(node, dads, t);
      if t == node {
        NoCount(dads, t);
      }
    }
  }

  lemma JoinByFreq(list: seq<int>, live: set<int>, freq: seq<int>, freq': seq<int>, node: int, x: int, y: int)
    requires ByFreq(list, live, freq) && x in live && y in live && x != y && 0 <= node < |freq| == |freq'|
    requires (forall k :: 0 <= k < |freq| && k != node ==> freq'[k] == freq[k]) && freq'[node] == freq[x] + freq[y]
    requires node !in live && node !in list
    requires freq[x] <= freq[y] && forall k :: k in live && k != x ==> freq[y] <= freq[k]
    ensures ByFreq([y, x] + list, live - {x} - {y} + {node}, freq')
  {
    var l := [y, x] + list;
    forall i | 0 <= i < |l|
      ensures 0 <= l[i] < |freq| && l[i] != node
    {
      if i >= 2 {
        assert l[i] == list[i - 2];
      }
    }
    forall i, j | 0 <= i < j < |l|
      ensures freq'[l[i]] >= freq'[l[j]]
    {
      if i >= 2 {
        assert l[i] == list[i - 2] && l[j] == list[j - 2];
      } else if j >= 2 {
        assert l[j] == list[j - 2];
      }
    }
    forall z, i | z in live - {x} - {y} + {node} && 0 <= i < |l|
      ensures freq'[z] >= freq'[l[i]]
    {
      if i >= 2 {
        assert l[i] == list[i - 2];
      }
    }
  }

  lemma JoinPaired(list: seq<int>, dads: seq<int>, freq: seq<int>, freq': seq<int>, node: int, x: int, y: int)
    requires Paired(list, dads, freq) && 0 <= x < |freq| && 0 <= y < |freq| && 0 <= node < |freq| == |freq'|
    requires (forall k :: 0 <= k < |freq| && k != node ==> freq'[k] == freq[k]) && freq'[node] == freq[x] + freq[y]
    requires node != x && node != y && node !in list && node !in dads
    ensures Paired([y, x] + list, [node, node] + dads, freq')
  {
    hide Brothers;
    var l, d := [y, x] + list, [node, node] + dads;
    forall i | 0 <= i < |l| && i % 2 == 0
      ensures Brothers(l, d, freq', i)
    {
      if i == 0 {
        FirstBrothers(l, d, freq');
      } else {
        BrothersBehind(list, dads, freq, freq', node, x, y, i - 2);
      }
    }
  }

  lemma FirstBrothers(l: seq<int>, d: seq<int>, freq: seq<int>)
    requires |l| == |d| >= 2 && 0 <= l[0] < |freq| && 0 <= l[1] < |freq| && 0 <= d[0] == d[1] < |freq|
    requires freq[d[0]] == freq[l[0]] + freq[l[1]]
    ensures Brothers(l, d, freq, 0)
  {
  }

  lemma BrothersBehind(list: seq<int>, dads: seq<int>, freq: seq<int>, freq': seq<int>, node: int, x: int, y: int,
                       k: nat)
    requires |list| == |dads| && Brothers(list, dads, freq, k) && |freq'| == |freq| && node !in list && node !in dads
    requires forall k :: 0 <= k < |freq| && k != node ==> freq'[k] == freq[k]
    ensures Brothers([y, x] + list, [node, node] + dads, freq', k + 2)
  {
  }

  // ---------- the finished tree ----------

  /** The root first; everything else behind its father; fathers have two sons. */
  ghost predicate Grown(list: seq<int>, dads: seq<int>, leaves: set<int>, elems: int) {
    && |list| == |dads| >= 3
    && (forall i, j :: 0 <= i < j < |list| ==> list[i] != list[j])
    && (forall x :: x in leaves ==> 0 <= x < elems && x in list)
    && (forall i :: 0 <= i < |list| ==> list[i] in leaves || elems <= list[i])
    && elems <= list[0]
    && (forall i :: 1 <= i < |list| ==> elems <= dads[i] && dads[i] in list[..i])
    && (forall q :: 0 <= q < |list| && elems <= list[q] ==> Count(dads[1..], list[q]) == 2)
  }

  lemma Finished(list: seq<int>, dads: seq<int>, leaves: set<int>, elems: int, node: int, root: int)
    requires Members(list, {root}, leaves, elems, node) && Fathered(list, dads, {root}, elems, node)
    requires |list| >= 2 && elems <= root < node
    ensures Grown([root] + list, [-1] + dads, leaves, elems)
  {
    hide Count;
    var l, d := [root] + list, [-1] + dads;
    assert d[1..] == dads;
    forall i | 1 <= i < |l|
      ensures elems <= d[i] && d[i] in l[..i]
    {
      assert d[i] == dads[i - 1] && l[..i] == [root] + list[..i - 1];
      if d[i] == root {
        assert l[..i][0] == root;
      }
    }
    forall x | x in leaves
      ensures 0 <= x < elems && x in l
    {
      assert x in list;
    }
    forall q | 0 <= q < |l| && elems <= l[q]
      ensures Count(d[1..], l[q]) == 2
    {
      if q >= 1 {
        assert l[q] == list[q - 1];
      }
    }
  }

  /** Where the father of the i-th node stands. */
  ghost function DadAt(list: seq<int>, dads: seq<int>, i: nat): (q: nat)
    requires 1 <= i < |list| == |dads| && dads[i] in list[..i]
    ensures q < i && list[q] == dads[i]
  {
    var q :| 0 <= q < i && list[q] == dads[i];
    q
  }

  // ---------- depths cut off ----------

  /** Depths, but nothing beyond max. */
  ghost predicate Clamped(list: seq<int>, dads: seq<int>, leaves: set<int>, elems: int, max: nat, z: seq<int>, i: nat) {
    && Grown(list, dads, leaves, elems) && 1 <= i <= |z| && i <= |list|
    && z[0] == 0
    && forall j :: 1 <= j < i ==> BelowDad(list, dads, max, z, j)
  }

  /** The i-th node lies one below its father, as far as that is allowed. */
  ghost predicate BelowDad(list: seq<int>, dads: seq<int>, max: nat, z: seq<int>, i: nat)
    requires 1 <= i < |list| == |dads| && i < |z| && dads[i] in list[..i]
  {
    z[i] == Son(z[DadAt(list, dads, i)], max)
  }

  /** The depth below depth d. */
  function Son(d: int, max: nat): int {
    if d + 1 > max then max else d + 1
  }

  lemma {:induction false} ClampedBounds(list: seq<int>, dads: seq<int>, leaves: set<int>, elems: int, max: nat,
                                         z: seq<int>, i: nat, j: nat)
    requires Clamped(list, dads, leaves, elems, max, z, i) && j < i
    ensures 0 <= z[j] <= max && (j > 0 && max > 0 ==> z[j] >= 1)
    decreases j
  {
    hide Grown;
    if j > 0 {
      InList(list, dads, leaves, elems, j);
      assert BelowDad(list, dads, max, z, j);
      ClampedBounds(list, dads, leaves, elems, max, z, i, DadAt(list, dads, j));
    }
  }

  lemma InList(list: seq<int>, dads: seq<int>, leaves: set<int>, elems: int, i: nat)
    requires Grown(list, dads, leaves, elems) && 1 <= i < |list|
    ensures |dads| == |list| && dads[i] in list[..i]
    ensures elems <= list[DadAt(list, dads, i)]
  {
  }

  /** What is open among the sons of the fathers at positions below m when the first i nodes have been reached, each
      son counted with a weight that depends on its father's depth. */
  ghost function Open(list: seq<int>, dads: seq<int>, elems: int, z: seq<int>, wt: seq<int>, i: nat, m: nat): int
    requires 1 <= i <= |list| == |dads| && m <= i && m <= |z| && forall q :: 0 <= q < m ==> 0 <= z[q] < |wt|
  {
    if m == 0 then 0
    else
      Open(list, dads, elems, z, wt, i, m - 1) +
      (if list[m - 1] < elems then 0 else (2 - Count(dads[1..i], list[m - 1])) * wt[z[m - 1]])
  }

  lemma {:induction false} OpenSons(list: seq<int>, dads: seq<int>, leaves: set<int>, elems: int, z: seq<int>,
                                    wt: seq<int>, i: nat, m: nat)
    requires Grown(list, dads, leaves, elems) && 1 <= i < |list| && m <= i <= |z|
    requires forall q :: 0 <= q < m ==> 0 <= z[q] < |wt|
    ensures dads[i] in list[..i]
    ensures var q := DadAt(list, dads, i);
      Open(list, dads, elems, z, wt, i + 1, m) == Open(list, dads, elems, z, wt, i, m) - (if q < m then wt[z[q]] else 0)
    decreases m
  {
    hide Count, Grown;
    InList(list, dads, leaves, elems, i);
    var q := DadAt(list, dads, i);
    if m > 0 {
      OpenSons(list, dads, leaves, elems, z, wt, i, m - 1);
      assert dads[1..i + 1] == dads[1..i] + [dads[i]];
      OneCount(dads[1..i], dads[i], list[m - 1]);
      Apart(list, dads, leaves, elems, q, m - 1);
      if q == m - 1 {
        Unit(2 - Count(dads[1..i], list[q]), wt[z[q]]);
      }
    }
  }

  lemma Unit(c: int, w: int)
    ensures (c - 1) * w == c * w - w
  {
  }

  lemma OneCount(s: seq<int>, v: int, t: int)
    ensures Count(s + [v], t) == Count(s, t) + (if v == t then 1 else 0)
  {
    assert (s + [v])[..|s|] == s;
  }

  lemma Apart(list: seq<int>, dads: seq<int>, leaves: set<int>, elems: int, q: nat, r: nat)
    requires Grown(list, dads, leaves, elems) && q < |list| && r < |list|
    ensures list[q] == list[r] <==> q == r
  {
  }

  /** Reaching node i closes one son of its father, and opens two if it is a father itself. */
  lemma OpenStep(list: seq<int>, dads: seq<int>, leaves: set<int>, elems: int, z: seq<int>, wt: seq<int>, i: nat)
    requires Grown(list, dads, leaves, elems) && 1 <= i < |list| && i < |z|
    requires forall q :: 0 <= q <= i ==> 0 <= z[q] < |wt|
    ensures dads[i] in list[..i] && |dads| == |list|
    ensures Open(list, dads, elems, z, wt, i + 1, i + 1) ==
      Open(list, dads, elems, z, wt, i, i) - wt[z[DadAt(list, dads, i)]] + (if list[i] < elems then 0 else 2 * wt[z[i]])
  {
    hide Count, Grown;
    OpenSons(list, dads, leaves, elems, z, wt, i, i);
    NotYetFather(list, dads, leaves, elems, i, i + 1);
    NoCount(dads[1..i + 1], list[i]);
  }

  lemma NotYetFather(list: seq<int>, dads: seq<int>, leaves: set<int>, elems: int, i: nat, n: nat)
    requires Grown(list, dads, leaves, elems) && 1 <= n <= i + 1 <= |list|
    ensures |dads| == |list| && forall j :: 0 <= j < n - 1 ==> dads[1..n][j] != list[i]
  {
    forall j | 0 <= j < n - 1
      ensures dads[1..n][j] != list[i]
    {
      assert dads[1..n][j] == dads[j + 1];
      assert dads[j + 1] in list[..j + 1];
    }
  }

  /** In the end nothing is open. */
  lemma {:induction false} NoneOpen(list: seq<int>, dads: seq<int>, leaves: set<int>, elems: int, z: seq<int>,
                                    wt: seq<int>, m: nat)
    requires Grown(list, dads, leaves, elems) && m <= |list| <= |z| && forall q :: 0 <= q < m ==> 0 <= z[q] < |wt|
    ensures |dads| == |list| && Open(list, dads, elems, z, wt, |list|, m) == 0
    decreases m
  {
    if m > 0 {
      NoneOpen(list, dads, leaves, elems, z, wt, m - 1);
      assert dads[1..|list|] == dads[1..];
    }
  }

  lemma OpenStart(list: seq<int>, dads: seq<int>, leaves: set<int>, elems: int, z: seq<int>, wt: seq<int>)
    requires Grown(list, dads, leaves, elems) && 1 <= |z| && z[0] == 0 && 0 < |wt|
    ensures |dads| == |list| && Open(list, dads, elems, z, wt, 1, 1) == 2 * wt[0]
  {
    assert dads[1..1] == [];
  }

  lemma {:induction false} OpenFrame(list: seq<int>, dads: seq<int>, elems: int, z: seq<int>, y: seq<int>, wt: seq<int>,
                                     i: nat, m: nat)
    requires 1 <= i <= |list| == |dads| && m <= i && i <= |z| && i <= |y|
    requires forall q :: 0 <= q < m ==> 0 <= z[q] < |wt| && y[q] == z[q]
    ensures Open(list, dads, elems, z, wt, i, m) == Open(list, dads, elems, y, wt, i, m)
  {
    if m > 0 {
      OpenFrame(list, dads, elems, z, y, wt, i, m - 1);
    }
  }
}
