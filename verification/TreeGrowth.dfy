/** The construction of a Huffman tree in the heap: the queue of live nodes below, the list of joined ones above. */
module TreeGrowth {
  import opened DeflateTree
  import opened TreeCodes

  /** The frequencies of the live nodes together. */
  ghost function LiveSum(freq: seq<int>, live: set<int>, m: nat): int
    requires m <= |freq|
  {
    if m == 0 then 0 else LiveSum(freq, live, m - 1) + (if m - 1 in live then freq[m - 1] else 0)
  }

  lemma {:induction false} LiveSumWithout(freq: seq<int>, live: set<int>, m: nat, x: int)
    requires m <= |freq|
    ensures LiveSum(freq, live - {x}, m) == LiveSum(freq, live, m) - (if x in live && 0 <= x < m then freq[x] else 0)
  {
    if m > 0 {
      LiveSumWithout(freq, live, m - 1, x);
    }
  }

  lemma {:induction false} LiveSumFrame(freq: seq<int>, freq': seq<int>, live: set<int>, live': set<int>, m: nat)
    requires m <= |freq| && m <= |freq'|
    requires forall x :: 0 <= x < m ==> freq[x] == freq'[x] && (x in live <==> x in live')
    ensures LiveSum(freq, live, m) == LiveSum(freq', live', m)
  {
    if m > 0 {
      LiveSumFrame(freq, freq', live, live', m - 1);
    }
  }

  lemma {:induction false} LiveSumNonNegative(freq: seq<int>, live: set<int>, m: nat)
    requires m <= |freq| && forall x :: x in live && 0 <= x < m ==> freq[x] >= 0
    ensures LiveSum(freq, live, m) >= 0
  {
    if m > 0 {
      LiveSumNonNegative(freq, live, m - 1);
    }
  }

  /** Joining two nodes keeps the sum, and their sum does not exceed it. */
  lemma LiveSumJoin(freq: seq<int>, freq': seq<int>, live: set<int>, node: nat, x: int, y: int)
    requires node < |freq| == |freq'| && x in live && y in live && x != y && 0 <= x < node && 0 <= y < node
    requires node !in live
    requires forall z :: z in live ==> 0 <= z < |freq| && freq[z] >= 0
    requires (forall k :: 0 <= k < |freq| && k != node ==> freq'[k] == freq[k])
    ensures freq[x] + freq[y] <= LiveSum(freq, live, node)
    ensures freq'[node] == freq[x] + freq[y] ==>
        LiveSum(freq', live - {x} - {y} + {node}, node + 1) == LiveSum(freq, live, node)
  {
    LiveSumWithout(freq, live, node, x);
    LiveSumWithout(freq, live - {x}, node, y);
    LiveSumNonNegative(freq, live - {x} - {y}, node);
    LiveSumFrame(freq, freq', live - {x} - {y}, live - {x} - {y} + {node}, node);
  }

  /** The tree so far. */
  ghost predicate Growing(list: seq<int>, dads: seq<int>, live: set<int>, leaves: set<int>, elems: nat, node: nat,
                          dl: seq<int>) {
    && 3 <= elems <= node <= |dl|
    && Members(list, live, leaves, elems, node) && Fathered(list, dads, live, elems, node)
    && |list| == 2 * (node - elems)
    && (forall i :: 0 <= i < |list| ==> 0 <= list[i] < |dl| && dl[list[i]] == dads[i])
    && (forall n :: 0 <= n < elems && n !in leaves ==> dl[n] == 0)
  }

  /** As long as the frequencies do not wrap around, the list runs from frequent to rare. */
  ghost predicate Ranked(list: seq<int>, dads: seq<int>, live: set<int>, node: nat, freq: seq<int>, total: int) {
    && node <= |freq| && ByFreq(list, live, freq) && Paired(list, dads, freq) &&
       LiveSum(freq, live, node) == total < 0x1_0000
  }

  lemma GrowingStep(list: seq<int>, dads: seq<int>, live: set<int>, leaves: set<int>, elems: nat, node: nat,
                    dl: seq<int>, x: int, y: int)
    requires Growing(list, dads, live, leaves, elems, node, dl) && x in live && y in live && x != y && node < |dl|
    ensures 0 <= x < node && 0 <= y < node && node !in live && node !in list && node !in dads
    ensures Growing([y, x] + list, [node, node] + dads, live - {x} - {y} + {node}, leaves, elems, node + 1,
                    dl[x := node][y := node])
  {
    hide Members, Fathered;
    JoinMembers(list, live, leaves, elems, node, x, y);
    JoinFathered(list, dads, live, leaves, elems, node, x, y);
    MembersBelow(list, dads, live, leaves, elems, node);
    var l, d := [y, x] + list, [node, node] + dads;
    var dl' := dl[x := node][y := node];
    forall i | 0 <= i < |l|
      ensures 0 <= l[i] < |dl'| && dl'[l[i]] == d[i]
    {
      if i >= 2 {
        assert l[i] == list[i - 2] && d[i] == dads[i - 2];
      }
    }
  }

  lemma MembersBelow(list: seq<int>, dads: seq<int>, live: set<int>, leaves: set<int>, elems: nat, node: nat)
    requires Members(list, live, leaves, elems, node) && Fathered(list, dads, live, elems, node) && elems <= node
    ensures forall x :: x in live ==> 0 <= x < node && x !in list && (x in leaves || elems <= x)
    ensures node !in live && node !in list && node !in dads && |list| == |dads|
  {
  }

  lemma RankedStep(list: seq<int>, dads: seq<int>, live: set<int>, node: nat, freq: seq<int>, freq': seq<int>,
                   total: int, x: int, y: int)
    requires Ranked(list, dads, live, node, freq, total) && x in live && y in live && x != y
    requires 0 <= x < node && 0 <= y < node < |freq| == |freq'| && node !in live && node !in list && node !in dads
    requires (forall k :: 0 <= k < |freq| && k != node ==> freq'[k] == freq[k]) && freq'[node] == Ush(freq[x] + freq[y])
    requires freq[x] >= 0 && freq[y] >= 0 && freq[x] <= freq[y]
    requires forall k :: k in live && k != x ==> 0 <= k < |freq| && freq[y] <= freq[k]
    ensures Ranked([y, x] + list, [node, node] + dads, live - {x} - {y} + {node}, node + 1, freq', total)
  {
    hide Paired;
    LiveSumJoin(freq, freq', live, node, x, y);
    UshFits(freq[x] + freq[y]);
    JoinByFreq(list, live, freq, freq', node, x, y);
    JoinPaired(list, dads, freq, freq', node, x, y);
  }
}
