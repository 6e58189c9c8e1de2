/** Cutting off depths that exceed the longest length allowed: by how much the Kraft sum exceeds one, and how that
    shows in the number of nodes cut off. */
module DepthClamp {
  import opened Counting
  import opened Bits
  import opened BitIO
  import opened DeflateCodes
  import opened DeflateTree
  import HuffmanForest

  /** The room of a son, by the depth of its father. */
  ghost function SonRoom(max: nat): (wt: seq<int>)
    ensures |wt| == max + 1
  {
    seq(max + 1, d requires 0 <= d < max + 1 => Pow2(max - Son(d, max)))
  }

  /** Whether the sons are cut off. */
  ghost function CutOff(max: nat): (wt: seq<int>)
    ensures |wt| == max + 1
  {
    seq(max + 1, d => if d == max then 1 else 0)
  }

  /** Whether the sons lie at the greatest depth. */
  ghost function Deepest(max: nat): (wt: seq<int>)
    ensures |wt| == max + 1
  {
    seq(max + 1, d => if d + 1 >= max then 1 else 0)
  }

  lemma Weights(max: nat, d: nat)
    requires d <= max
    ensures 2 * SonRoom(max)[d] == Pow2(max - d) + (if d == max then 1 else 0)
    ensures CutOff(max)[d] == (if d == max then 1 else 0)
    ensures Deepest(max)[d] == (if d + 1 >= max then 1 else 0)
    ensures SonRoom(max)[d] == Pow2(max - Son(d, max))
  {
    Pow2Step(0);
  }

  lemma {:induction false} UsedKraftSet(s: seq<int>, n: nat, b: nat, max: nat)
    requires n < |s| && s[n] == 0 && 0 < b <= max
    ensures UsedKraft(s[n := b], max) == UsedKraft(s, max) + Pow2(max - b)
  {
    hide Pow2;
    var k := |s| - 1;
    if n < k {
      UsedKraftSet(s[..k], n, b, max);
      assert s[n := b][..k] == s[..k][n := b];
    } else {
      assert s[n := b][..k] == s[..k];
    }
  }

  lemma {:induction false} NothingUsed(s: seq<int>, max: nat)
    requires forall n :: 0 <= n < |s| ==> s[n] == 0
    ensures UsedKraft(s, max) == 0
  {
    if s != [] {
      NothingUsed(s[..|s|-1], max);
    }
  }

  /** The lengths of the leaves among the first i nodes; zero elsewhere. */
  ghost predicate LeafLens(list: seq<int>, elems: nat, z: seq<int>, i: nat, s: seq<int>) {
    && i <= |list| && i <= |z| && |s| == elems
    && (forall q :: 0 <= q < i && 0 <= list[q] < elems ==> s[list[q]] == z[q])
    && (forall n :: 0 <= n < elems && n !in list[..i] ==> s[n] == 0)
  }

  /** The Kraft sum of the leaves reached, the room of open sons, the excess so far, and the nodes cut off. */
  ghost predicate Balance(list: seq<int>, dads: seq<int>, leaves: set<int>, elems: nat, max: nat, z: seq<int>, i: nat,
                          s: seq<int>, over: int, excess: nat) {
    && max >= 1 && Clamped(list, dads, leaves, elems, max, z, i) && |z| == i
    && (forall q :: 0 <= q < i ==> 0 <= z[q] <= max)
    && LeafLens(list, elems, z, i, s)
    && UsedKraft(s, max) + Open(list, dads, elems, z, SonRoom(max), i, i) == Pow2(max) + excess
    && over + Open(list, dads, elems, z, CutOff(max), i, i) == 2 * excess
    && Count(s, max) + Open(list, dads, elems, z, Deepest(max), i, i) >= excess
  }

  lemma BalanceStart(list: seq<int>, dads: seq<int>, leaves: set<int>, elems: nat, max: nat, s: seq<int>)
    requires Grown(list, dads, leaves, elems) && max >= 1 && |s| == elems && forall n :: 0 <= n < elems ==> s[n] == 0
    ensures Balance(list, dads, leaves, elems, max, [0], 1, s, 0, 0)
  {
    hide Count, Pow2, UsedKraft, Open, SonRoom, CutOff, Deepest;
    NothingUsed(s, max);
    OpenStart(list, dads, leaves, elems, [0], SonRoom(max));
    OpenStart(list, dads, leaves, elems, [0], CutOff(max));
    OpenStart(list, dads, leaves, elems, [0], Deepest(max));
    Weights(max, 0);
    assert list[..1] == [list[0]];
  }

  /** All three sums after one more node. */
  lemma OpenGrows(list: seq<int>, dads: seq<int>, leaves: set<int>, elems: nat, max: nat, z: seq<int>, i: nat, b: int,
                  wt: seq<int>)
    requires Grown(list, dads, leaves, elems) && 1 <= i < |list| && |z| == i && 0 <= b < |wt|
    requires forall q :: 0 <= q < i ==> 0 <= z[q] < |wt|
    ensures dads[i] in list[..i] && |dads| == |list|
    ensures Open(list, dads, elems, z + [b], wt, i + 1, i + 1) ==
      Open(list, dads, elems, z, wt, i, i) - wt[z[DadAt(list, dads, i)]] + (if list[i] < elems then 0 else 2 * wt[b])
  {
    hide Count, Open, Grown;
    InList(list, dads, leaves, elems, i);
    OpenStep(list, dads, leaves, elems, z + [b], wt, i);
    OpenFrame(list, dads, elems, z, z + [b], wt, i, i);
  }

  lemma LeafLensStep(list: seq<int>, dads: seq<int>, leaves: set<int>, elems: nat, z: seq<int>, i: nat, s: seq<int>,
                     b: nat)
    requires Grown(list, dads, leaves, elems) && LeafLens(list, elems, z, i, s) && i < |list| && |z| == i
    ensures 0 <= list[i] < elems ==> s[list[i]] == 0
    ensures LeafLens(list, elems, z + [b], i + 1, if 0 <= list[i] < elems then s[list[i] := b] else s)
  {
    var s' := if 0 <= list[i] < elems then s[list[i] := b] else s;
    assert list[..i + 1] == list[..i] + [list[i]];
    assert list[i] !in list[..i];
    forall q | 0 <= q < i + 1 && 0 <= list[q] < elems
      ensures s'[list[q]] == (z + [b])[q]
    {
      Apart(list, dads, leaves, elems, q, i);
    }
  }

  /** One more node. */
  lemma BalanceStep(list: seq<int>, dads: seq<int>, leaves: set<int>, elems: nat, max: nat, z: seq<int>, i: nat,
                    s: seq<int>, over: int, excess: nat) returns (excess': nat)
    requires Balance(list, dads, leaves, elems, max, z, i, s, over, excess) && i < |list| && 0 <= list[i]
    ensures dads[i] in list[..i] && |dads| == |list|
    ensures var d := z[DadAt(list, dads, i)]; var b := Son(d, max);
      1 <= b && (0 <= list[i] < elems ==> s[list[i]] == 0) &&
      Balance(list, dads, leaves, elems, max, z + [b], i + 1, if list[i] < elems then s[list[i] := b] else s,
              over + (if d + 1 > max then 1 else 0), excess')
  {
    hide Count, Pow2, UsedKraft, Open, SonRoom, CutOff, Deepest, Grown, LeafLens;
    InList(list, dads, leaves, elems, i);
    var d := z[DadAt(list, dads, i)];
    var b: nat := Son(d, max);
    LeafLensStep(list, dads, leaves, elems, z, i, s, b);
    OpenGrows(list, dads, leaves, elems, max, z, i, b, SonRoom(max));
    OpenGrows(list, dads, leaves, elems, max, z, i, b, CutOff(max));
    OpenGrows(list, dads, leaves, elems, max, z, i, b, Deepest(max));
    Weights(max, d);
    Weights(max, b);
    excess' := if list[i] >= elems && b == max then excess + 1 else excess;
    ClampedNext(list, dads, leaves, elems, max, z, i);
    LensSize(list, elems, z, i, s);
    if list[i] < elems {
      UsedKraftSet(s, list[i], b, max);
      HuffmanForest.CountUpdate(s, list[i], b, max);
    }
  }

  lemma LensSize(list: seq<int>, elems: nat, z: seq<int>, i: nat, s: seq<int>)
    requires LeafLens(list, elems, z, i, s)
    ensures |s| == elems
  {
  }

  lemma ClampedNext(list: seq<int>, dads: seq<int>, leaves: set<int>, elems: nat, max: nat, z: seq<int>, i: nat)
    requires Clamped(list, dads, leaves, elems, max, z, i) && |z| == i < |list|
    ensures |dads| == |list| && dads[i] in list[..i]
    ensures Clamped(list, dads, leaves, elems, max, z + [Son(z[DadAt(list, dads, i)], max)], i + 1)
  {
    hide Grown;
    InList(list, dads, leaves, elems, i);
    var y := z + [Son(z[DadAt(list, dads, i)], max)];
    forall j | 1 <= j < i + 1
      ensures |dads| == |list| && dads[j] in list[..j] && BelowDad(list, dads, max, y, j)
    {
      InList(list, dads, leaves, elems, j);
      if j < i {
        assert BelowDad(list, dads, max, z, j);
      }
    }
  }

  /** When every node has been reached, twice the excess of the Kraft sum is the number of nodes cut off. */
  lemma BalanceEnd(list: seq<int>, dads: seq<int>, leaves: set<int>, elems: nat, max: nat, z: seq<int>, s: seq<int>,
                   over: int, excess: nat)
    requires Balance(list, dads, leaves, elems, max, z, |list|, s, over, excess)
    ensures UsedKraft(s, max) == Pow2(max) + excess && over == 2 * excess && Count(s, max) >= excess
  {
    hide Count, Pow2, UsedKraft, Open, SonRoom, CutOff, Deepest, Grown, LeafLens;
    NoneOpen(list, dads, leaves, elems, z, SonRoom(max), |list|);
    NoneOpen(list, dads, leaves, elems, z, CutOff(max), |list|);
    NoneOpen(list, dads, leaves, elems, z, Deepest(max), |list|);
  }

  // ---------- repairing ----------

  /** The Kraft sum of a count of lengths. */
  function CountedKraft(bl: seq<int>, n: nat): int
    requires n < |bl|
  {
    if n == 0 then 0 else 2 * CountedKraft(bl, n - 1) + bl[n]
  }

  function CountedAll(bl: seq<int>, n: nat): int
    requires n < |bl|
  {
    if n == 0 then 0 else CountedAll(bl, n - 1) + bl[n]
  }

  lemma {:induction false} CountedIsUsed(bl: seq<int>, s: seq<int>, n: nat)
    requires n < |bl| && forall b :: 1 <= b <= n ==> bl[b] == Count(s, b)
    ensures CountedKraft(bl, n) == UsedKraft(s, n)
  {
    hide Count;
    if n > 0 {
      CountedIsUsed(bl, s, n - 1);
      UsedKraftStep(s, n - 1);
    } else {
      UsedKraftStep(s, 0);
    }
  }

  lemma {:induction false} CountedSet(bl: seq<int>, b: nat, v: int, n: nat)
    requires 1 <= b < |bl| && n < |bl|
    ensures CountedKraft(bl[b := v], n) == CountedKraft(bl, n) + (if b <= n then (v - bl[b]) * Pow2(n - b) else 0)
    ensures CountedAll(bl[b := v], n) == CountedAll(bl, n) + (if b <= n then v - bl[b] else 0)
  {
    if n > 0 {
      CountedSet(bl, b, v, n - 1);
      if b < n {
        TwiceProduct(v - bl[b], Pow2(n - 1 - b));
      }
    }
  }

  lemma TwiceProduct(a: int, p: int)
    ensures 2 * (a * p) == a * (2 * p)
  {
  }

  /** If all lengths are n, the Kraft sum is just their number. */
  lemma {:induction false} OnlyAt(bl: seq<int>, n: nat)
    requires n < |bl| && forall b :: 1 <= b <= n ==> bl[b] == 0
    ensures CountedKraft(bl, n) == 0 && CountedAll(bl, n) == 0
  {
    if n > 0 {
      OnlyAt(bl, n - 1);
    }
  }

  /** How far the repair has come: the excess left, and no more leaves than strings of the greatest length. */
  ghost predicate Repairing(bl: seq<int>, max: nat, excess: nat, leaves: nat) {
    && 1 <= max < |bl| && bl[0] == 0 && (forall b :: 0 <= b < |bl| ==> bl[b] >= 0)
    && CountedKraft(bl, max) == Pow2(max) + excess && CountedAll(bl, max) == leaves <= Pow2(max)
    && bl[max] >= excess && forall b :: max < b < |bl| ==> bl[b] == 0
  }

  /** With an excess there is a leaf above the greatest depth. */
  lemma ShorterLeaf(bl: seq<int>, max: nat, excess: nat, leaves: nat)
    requires Repairing(bl, max, excess, leaves) && excess > 0
    ensures max >= 2 && exists b :: 1 <= b < max && bl[b] > 0
  {
    hide Pow2;
    if forall b :: 1 <= b < max ==> bl[b] == 0 {
      OnlyAt(bl, max - 1);
    }
  }

  /** Moving a leaf one step down, together with a leaf from the greatest depth, takes one unit off the excess. */
  lemma RepairStep(bl: seq<int>, max: nat, excess: nat, leaves: nat, b: nat)
    requires Repairing(bl, max, excess, leaves) && excess > 0 && 1 <= b < max && bl[b] > 0
    ensures
      var bl1 := bl[b := bl[b] - 1];
      var bl2 := bl1[b + 1 := bl1[b + 1] + 2];
      Repairing(bl2[max := bl2[max] - 1], max, excess - 1, leaves)
  {
    hide Pow2, CountedKraft, CountedAll;
    var bl1 := bl[b := bl[b] - 1];
    var bl2 := bl1[b + 1 := bl1[b + 1] + 2];
    CountedSet(bl, b, bl[b] - 1, max);
    CountedSet(bl1, b + 1, bl1[b + 1] + 2, max);
    CountedSet(bl2, max, bl2[max] - 1, max);
    Pow2Step(max - b - 1);
    Pow2Step(0);
    MinusOne(Pow2(max - b));
    MinusOne(Pow2(0));
  }

  lemma MinusOne(p: int)
    ensures (-1) * p == -p
  {
  }
}
