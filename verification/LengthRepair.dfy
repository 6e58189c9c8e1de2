/** The second half of gen_bitlen: handing out repaired lengths from the rarest leaf on, and why rarer symbols never
    get shorter codes. */
module LengthRepair {
  import opened Counting
  import opened Bits
  import opened SortedCodes
  import opened DeflateCodes
  import opened DeflateTree
  import opened DepthClamp
  import opened TreeLengths
  import HuffmanForest
  import Canonical

  // ---------- handing out lengths ----------

  /** The leaves from position i on have their new lengths s; all others count as zero. */
  ghost predicate Redone(list: seq<int>, elems: nat, dl: seq<int>, s: seq<int>, i: nat) {
    && i <= |list| && |s| == elems <= |dl|
    && (forall q :: i <= q < |list| && 0 <= list[q] < elems ==> s[list[q]] == dl[list[q]])
    && (forall n :: 0 <= n < elems && n !in list[i..] ==> s[n] == 0)
    && forall n :: 0 <= n < elems ==> 0 <= s[n] <= MAXBITS
  }

  /** Lengths never fall along the leaves from position i on, and are at least low. */
  ghost predicate Falls(list: seq<int>, elems: nat, dl: seq<int>, i: nat, low: int) {
    && (forall q :: i <= q < |list| && 0 <= list[q] < elems ==> list[q] < |dl| && low <= dl[list[q]])
    && forall q, r :: i <= q < r < |list| && 0 <= list[q] < elems && 0 <= list[r] < elems ==>
      list[q] < |dl| && list[r] < |dl| && dl[list[q]] <= dl[list[r]]
  }

  /** All leaves of lengths above bits have been served, and all but n of those with length bits. */
  ghost predicate Served(bl: seq<int>, s: seq<int>, bits: nat, n: int) {
    && |bl| == MAXBITS + 1 && bits <= MAXBITS
    && forall b :: 1 <= b <= MAXBITS ==> Count(s, b) == if b > bits then bl[b] else if b == bits then bl[b] - n else 0
  }

  lemma RedoneStep(list: seq<int>, dads: seq<int>, leaves: set<int>, elems: nat, dl: seq<int>, s: seq<int>, i: nat,
                   b: int)
    requires 0 <= b <= MAXBITS && Grown(list, dads, leaves, elems) && Redone(list, elems, dl, s, i) && 0 < i
    requires 0 <= list[i - 1] < |dl|
    ensures list[i - 1] >= elems ==> Redone(list, elems, dl, s, i - 1)
    ensures list[i - 1] < elems ==>
        s[list[i - 1]] == 0 && Redone(list, elems, dl[list[i - 1] := b], s[list[i - 1] := b], i - 1)
  {
    assert list[i - 1..] == [list[i - 1]] + list[i..];
    forall q | i <= q < |list|
      ensures list[q] != list[i - 1]
    {
      Apart(list, dads, leaves, elems, q, i - 1);
    }
  }

  lemma FallsStep(list: seq<int>, dads: seq<int>, leaves: set<int>, elems: nat, dl: seq<int>, i: nat, b: int)
    requires Grown(list, dads, leaves, elems) && 0 < i <= |list| && elems <= |dl| && Falls(list, elems, dl, i, b)
    requires 0 <= list[i - 1] < |dl|
    ensures list[i - 1] >= elems ==> Falls(list, elems, dl, i - 1, b)
    ensures list[i - 1] < elems ==> Falls(list, elems, dl[list[i - 1] := b], i - 1, b)
  {
    forall q | i <= q < |list|
      ensures list[q] != list[i - 1]
    {
      Apart(list, dads, leaves, elems, q, i - 1);
    }
  }

  lemma FallsLower(list: seq<int>, elems: nat, dl: seq<int>, i: nat, low: int, lower: int)
    requires Falls(list, elems, dl, i, low) && lower <= low
    ensures Falls(list, elems, dl, i, lower)
  {
  }

  lemma ServedStep(bl: seq<int>, s: seq<int>, bits: nat, n: int, m: nat)
    requires Served(bl, s, bits, n) && 1 <= bits && m < |s| && s[m] == 0
    ensures Served(bl, s[m := bits], bits, n - 1)
  {
    hide Count;
    forall b | 1 <= b <= MAXBITS
      ensures Count(s[m := bits], b) == Count(s, b) + (if bits == b then 1 else 0)
    {
      HuffmanForest.CountUpdate(s, m, bits, b);
    }
    forall b | 1 <= b <= MAXBITS
      ensures Count(s[m := bits], b) == if b > bits then bl[b] else if b == bits then bl[b] - (n - 1) else 0
    {
      assert Count(s, b) == if b > bits then bl[b] else if b == bits then bl[b] - n else 0;
    }
  }

  lemma ServedNext(bl: seq<int>, s: seq<int>, bits: nat)
    requires Served(bl, s, bits, 0) && 1 <= bits
    ensures Served(bl, s, bits - 1, bl[bits - 1])
  {
  }

  /** Everything that changes while lengths are handed out. */
  ghost predicate Handing(list: seq<int>, elems: nat, dl: seq<int>, s: seq<int>, bl: seq<int>, i: nat, bits: nat,
                          n: int) {
    && Redone(list, elems, dl, s, i) && Falls(list, elems, dl, i, bits) && Served(bl, s, bits, n)
    && 0 <= n && LeavesIn(list, elems, i) == CountedAll(bl, if bits == 0 then 0 else bits - 1) + n
  }

  lemma HandingStep(list: seq<int>, dads: seq<int>, leaves: set<int>, elems: nat, dl: seq<int>, s: seq<int>,
                    bl: seq<int>, i: nat, bits: nat, n: int)
    requires Grown(list, dads, leaves, elems) && Handing(list, elems, dl, s, bl, i, bits, n) && 0 < i
    requires 0 <= list[i - 1] < |dl| && 1 <= bits <= MAXBITS
    ensures list[i - 1] >= elems ==> Handing(list, elems, dl, s, bl, i - 1, bits, n)
    ensures list[i - 1] < elems ==> list[i - 1] < |s|
    ensures list[i - 1] < elems && n > 0 ==>
      Handing(list, elems, dl[list[i - 1] := bits], s[list[i - 1] := bits], bl, i - 1, bits, n - 1)
  {
    hide Redone, Falls, Served, LeavesIn, CountedAll, Grown;
    RedoneSize(list, elems, dl, s, i);
    NextLeaf(list, elems, i - 1);
    RedoneStep(list, dads, leaves, elems, dl, s, i, bits);
    FallsStep(list, dads, leaves, elems, dl, i, bits);
    if list[i - 1] < elems {
      ServedStep(bl, s, bits, n, list[i - 1]);
    }
  }

  lemma RedoneSize(list: seq<int>, elems: nat, dl: seq<int>, s: seq<int>, i: nat)
    requires Redone(list, elems, dl, s, i)
    ensures |s| == elems <= |dl| && i <= |list|
  {
  }

  lemma HandingNext(list: seq<int>, elems: nat, dl: seq<int>, s: seq<int>, bl: seq<int>, i: nat, bits: nat)
    requires Handing(list, elems, dl, s, bl, i, bits, 0) && 2 <= bits && bl[bits - 1] >= 0
    ensures Handing(list, elems, dl, s, bl, i, bits - 1, bl[bits - 1])
  {
    hide Redone, Count, LeavesIn;
    FallsLower(list, elems, dl, i, bits, bits - 1);
    ServedNext(bl, s, bits);
  }

  /** As long as a length is to be handed out there is a leaf to take it. */
  lemma LeafLeft(list: seq<int>, elems: nat, dl: seq<int>, s: seq<int>, bl: seq<int>, i: nat, bits: nat, n: int)
    requires Handing(list, elems, dl, s, bl, i, bits, n) && n > 0 && forall b :: 0 <= b < |bl| ==> bl[b] >= 0
    ensures 0 < i <= |list|
  {
    AllNonNegative(bl, if bits == 0 then 0 else bits - 1);
  }

  lemma {:induction false} AllNonNegative(bl: seq<int>, n: nat)
    requires n < |bl| && forall b :: 0 <= b < |bl| ==> bl[b] >= 0
    ensures CountedAll(bl, n) >= 0
  {
    if n > 0 {
      AllNonNegative(bl, n - 1);
    }
  }

  /** Hands length bits to as many leaves as count for it. */
  method HandOut(heap: array<int>, heapMax: nat, h0: int, n0: int, fc: array<int>, dl: array<int>, maxCode: int,
                 bits: nat,
                 desc: StaticDesc, optLen0: int, ghost list: seq<int>, ghost dads: seq<int>, ghost leaves: set<int>,
                 ghost bl: seq<int>, ghost s0: seq<int>)
    returns (h: int, optLen: int, ghost s: seq<int>)
    requires dl != heap && dl != fc && IsDesc(desc) && heap.Length == HEAP_SIZE && 1 <= bits <= MAXBITS
    requires 0 <= heapMax <= h0 <= HEAP_SIZE && heap[heapMax..] == list && Grown(list, dads, leaves, desc.elems)
    requires desc.elems <= dl.Length && desc.elems <= fc.Length
    requires NodesFit(list, dl.Length, fc.Length, maxCode, desc.elems)
    requires Handing(list, desc.elems, dl[..], s0, bl, h0 - heapMax, bits, n0)
    requires forall b :: 0 <= b < |bl| ==> bl[b] >= 0
    modifies dl
    ensures heapMax <= h <= h0 && Handing(list, desc.elems, dl[..], s, bl, h - heapMax, bits, 0)
    ensures forall n :: 0 <= n < dl.Length && (n !in leaves || n >= desc.elems) ==> dl[n] == old(dl[n])
    ensures optLen - Cost(fc[..], dl[..desc.elems], desc, desc.elems) ==
        optLen0 - Cost(fc[..], old(dl[..desc.elems]), desc, desc.elems)
  {
    hide Grown, Handing, Cost, NodesFit, IsDesc;
    DescParts(desc);
    h, optLen, s := h0, optLen0, s0;
    var n := n0;
    HandingSize(list, desc.elems, dl[..], s, bl, h - heapMax, bits, n);
    ghost var cost := Cost(fc[..], dl[..desc.elems], desc, desc.elems);
    ghost var cost0 := cost;
    while n != 0
      invariant heapMax <= h <= h0 && 0 <= n && Handing(list, desc.elems, dl[..], s, bl, h - heapMax, bits, n)
      invariant forall n :: 0 <= n < dl.Length && (n !in leaves || n >= desc.elems) ==> dl[n] == old(dl[n])
      invariant cost == Cost(fc[..], dl[..desc.elems], desc, desc.elems) && optLen - cost == optLen0 - cost0
      decreases h
      modifies dl
    {
      ghost var i := h - heapMax;
      LeafLeft(list, desc.elems, dl[..], s, bl, i, bits, n);
      NodeFits(list, dl.Length, fc.Length, maxCode, desc.elems, i - 1);
      assert heap[h - 1] == list[i - 1];
      ghost var d: seq<int> := dl[..];
      HandingStep(list, dads, leaves, desc.elems, d, s, bl, i, bits, n);
      h := h - 1;
      var m := heap[h];
      if m > maxCode {
        continue;
      }
      LeafHere(list, dads, leaves, desc.elems, i - 1);
      CostMoves(fc[..], d[..desc.elems], desc, desc.elems, m, bits);
      assert d[m := bits][..desc.elems] == d[..desc.elems][m := bits];
      cost := cost + (bits - d[m]) * fc[m];
      if dl[m] != bits {
        optLen := optLen + (bits - dl[m]) * fc[m];
        dl[m] := bits;
      }
      assert dl[..] == d[m := bits];
      s := s[m := bits];
      n := n - 1;
    }
  }

  lemma HandingSize(list: seq<int>, elems: nat, dl: seq<int>, s: seq<int>, bl: seq<int>, i: nat, bits: nat, n: int)
    requires Handing(list, elems, dl, s, bl, i, bits, n)
    ensures 0 <= n && |s| == elems && |bl| == MAXBITS + 1
  {
  }

  /** Hands out all lengths, the longest to the rarest leaves. */
  method HandOutAll(heap: array<int>, heapMax: nat, fc: array<int>, dl: array<int>, blCount: array<int>, maxCode: int,
                    desc: StaticDesc, optLen0: int, ghost list: seq<int>, ghost dads: seq<int>, ghost leaves: set<int>)
    returns (optLen: int)
    requires dl != heap && dl != fc && dl != blCount && IsDesc(desc) && heap.Length == HEAP_SIZE
    requires blCount.Length == MAXBITS + 1
    requires 0 <= heapMax <= HEAP_SIZE && heap[heapMax..] == list && Grown(list, dads, leaves, desc.elems)
    requires desc.elems <= dl.Length && desc.elems <= fc.Length
    requires NodesFit(list, dl.Length, fc.Length, maxCode, desc.elems)
    requires Repairing(blCount[..], desc.maxLength, 0, LeavesIn(list, desc.elems, |list|))
    requires forall n :: 0 <= n < desc.elems && n !in leaves ==> dl[n] == 0
    modifies dl
    ensures forall b :: 1 <= b <= MAXBITS ==> Count(dl[..desc.elems], b) == blCount[b]
    ensures Falls(list, desc.elems, dl[..], 0, 1)
    ensures forall n :: 0 <= n < desc.elems ==> if n in leaves then 1 <= dl[n] <= desc.maxLength else dl[n] == 0
    ensures optLen - Cost(fc[..], dl[..desc.elems], desc, desc.elems) ==
        optLen0 - Cost(fc[..], old(dl[..desc.elems]), desc, desc.elems)
  {
    hide Grown, Handing, Cost, NodesFit, IsDesc, Repairing, LeavesIn, Falls;
    DescParts(desc);
    ghost var bl: seq<int> := blCount[..];
    RepairSize(bl, desc.maxLength, 0, LeavesIn(list, desc.elems, |list|));
    var h := HEAP_SIZE;
    var bits := desc.maxLength;
    optLen := optLen0;
    ghost var s: seq<int> := seq(desc.elems, n => 0);
    StartHanding(list, desc.elems, dl[..], s, bl, desc.maxLength);
    while true
      invariant 1 <= bits <= desc.maxLength && heapMax <= h <= HEAP_SIZE
      invariant Handing(list, desc.elems, dl[..], s, bl, h - heapMax, bits, blCount[bits])
      invariant forall n :: 0 <= n < dl.Length && (n !in leaves || n >= desc.elems) ==> dl[n] == old(dl[n])
      invariant optLen - Cost(fc[..], dl[..desc.elems], desc, desc.elems) ==
          optLen0 - Cost(fc[..], old(dl[..desc.elems]), desc, desc.elems)
      decreases bits
      modifies dl
    {
      h, optLen, s := HandOut(heap, heapMax, h, blCount[bits], fc, dl, maxCode, bits, desc, optLen, list, dads, leaves,
          bl, s);
      if bits == 1 {
        break;
      }
      HandingNext(list, desc.elems, dl[..], s, bl, h - heapMax, bits);
      bits := bits - 1;
    }
    EndHanding(list, dads, leaves, desc.elems, desc.maxLength, dl[..], s, bl, h - heapMax);
  }

  lemma StartHanding(list: seq<int>, elems: nat, dl: seq<int>, s: seq<int>, bl: seq<int>, max: nat)
    requires Repairing(bl, max, 0, LeavesIn(list, elems, |list|)) && |bl| == MAXBITS + 1
    requires |s| == elems <= |dl| && forall n :: 0 <= n < elems ==> s[n] == 0
    ensures Handing(list, elems, dl, s, bl, |list|, max, bl[max])
  {
    hide Count, LeavesIn;
    forall b | 1 <= b <= MAXBITS
      ensures Count(s, b) == 0
    {
      Canonical.NoCount(s, b);
    }
  }

  /** Once all lengths are handed out every leaf has one. */
  lemma EndHanding(list: seq<int>, dads: seq<int>, leaves: set<int>, elems: nat, max: nat, dl: seq<int>, s: seq<int>,
                   bl: seq<int>, i: nat)
    requires Grown(list, dads, leaves, elems) && Handing(list, elems, dl, s, bl, i, 1, 0) && 1 <= max <= MAXBITS
    requires forall n :: 0 <= n < elems && n !in leaves ==> dl[n] == 0
    requires forall b :: max < b < |bl| ==> bl[b] == 0
    ensures elems <= |dl| && (forall b :: 1 <= b <= MAXBITS ==> Count(dl[..elems], b) == bl[b])
    ensures Falls(list, elems, dl, 0, 1)
    ensures forall n :: 0 <= n < elems ==> if n in leaves then 1 <= dl[n] <= max else dl[n] == 0
  {
    hide Count;
    NoLeafBefore(list, elems, i);
    forall n | 0 <= n < elems
      ensures dl[n] == s[n]
      ensures if n in leaves then 1 <= dl[n] <= max else dl[n] == 0
    {
      if n in leaves {
        var q :| 0 <= q < |list| && list[q] == n;
        assert dl[n] == s[n] >= 1;
        if s[n] > max {
          Occurs(s, n);
          TooLong(bl, s, max, s[n]);
        }
      } else if n in list[i..] {
        LeafListed(list, dads, leaves, elems, i, n);
      }
    }
    assert dl[..elems] == s;
  }

  lemma {:induction false} NoLeafBefore(list: seq<int>, elems: nat, i: nat)
    requires i <= |list| && LeavesIn(list, elems, i) == 0
    ensures forall q :: 0 <= q < i ==> list[q] >= elems
  {
    if i > 0 {
      NoLeafBefore(list, elems, i - 1);
    }
  }

  lemma Occurs(s: seq<int>, n: nat)
    requires n < |s|
    ensures Count(s, s[n]) > 0
  {
    CountWhole(s, s[n], n);
  }

  /** No length above the greatest one was there to be handed out. */
  lemma TooLong(bl: seq<int>, s: seq<int>, max: nat, b: int)
    requires Served(bl, s, 1, 0) && Count(s, b) > 0 && b > max >= 1 && forall b :: max < b < |bl| ==> bl[b] == 0
    ensures b > MAXBITS
  {
  }

  lemma LeafListed(list: seq<int>, dads: seq<int>, leaves: set<int>, elems: nat, i: nat, n: int)
    requires Grown(list, dads, leaves, elems) && i <= |list| && n in list[i..] && n < elems
    ensures n in leaves
  {
  }

  // ---------- rarer is never shorter ----------

  ghost predicate Descending(list: seq<int>, freq: seq<int>) {
    && (forall i :: 0 <= i < |list| ==> 0 <= list[i] < |freq|)
    && forall i, j :: 0 <= i < j < |list| ==> freq[list[i]] >= freq[list[j]]
  }

  /** Of two leaves the rarer one has a code at least as long. */
  ghost predicate RarerIsLonger(freq: seq<int>, lens: seq<int>, leaves: set<int>) {
    forall a, b ::
      a in leaves && b in leaves && 0 <= a < |freq| && 0 <= b < |freq| && a < |lens| && b < |lens| ==>
        freq[a] < freq[b] ==> lens[a] >= lens[b]
  }

  /** The elder of the two brothers to which node i belongs. */
  function Elder(i: nat): nat
    requires i >= 1
  {
    (i - 1) / 2 * 2 + 1
  }

  lemma ElderIs(i: nat, j: nat)
    requires 1 <= i <= j
    ensures Elder(i) <= i <= Elder(i) + 1 && (Elder(i) == Elder(j) || Elder(i) + 1 < Elder(j))
    ensures (Elder(i) - 1) % 2 == 0
  {
  }

  lemma FatherOfTwo(list: seq<int>, dads: seq<int>, freq: seq<int>, i: nat)
    requires 1 <= i < |list| == |dads| && Paired(list[1..], dads[1..], freq)
    ensures Elder(i) + 1 < |list| && dads[i] == dads[Elder(i)]
    ensures 0 <= dads[i] < |freq| && 0 <= list[Elder(i)] < |freq| && 0 <= list[Elder(i) + 1] < |freq|
    ensures freq[dads[i]] == freq[list[Elder(i)]] + freq[list[Elder(i) + 1]]
  {
    hide Elder;
    ElderIs(i, i);
    assert Brothers(list[1..], dads[1..], freq, Elder(i) - 1);
  }

  /** Fathers of more frequent nodes are more frequent. */
  lemma FathersDescend(list: seq<int>, dads: seq<int>, freq: seq<int>, i: nat, j: nat)
    requires |list| == |dads| && Descending(list, freq) && 1 <= i < j < |list| && Paired(list[1..], dads[1..], freq)
    requires freq[list[i]] > freq[list[j]]
    ensures 0 <= dads[i] < |freq| && 0 <= dads[j] < |freq|
    ensures dads[i] == dads[j] || freq[dads[i]] > freq[dads[j]]
  {
    hide Elder, Paired;
    FatherOfTwo(list, dads, freq, i);
    FatherOfTwo(list, dads, freq, j);
    ElderIs(i, j);
    ElderIs(j, j);
    var a, c := Elder(i), Elder(j);
    if a != c {
      var b, d := a + 1, c + 1;
      assert freq[list[a]] >= freq[list[b]] >= freq[list[c]] >= freq[list[d]];
    }
  }

  /** More frequent nodes lie no deeper. */
  lemma {:induction false} DepthsAscend(list: seq<int>, dads: seq<int>, leaves: set<int>, elems: int, max: nat,
                                        z: seq<int>, freq: seq<int>, i: nat, j: nat)
    requires Clamped(list, dads, leaves, elems, max, z, |list|) && Descending(list, freq)
    requires Paired(list[1..], dads[1..], freq)
    requires i < j < |list| && freq[list[i]] > freq[list[j]]
    ensures z[i] <= z[j]
    decreases i + j
  {
    hide Grown;
    ClampedBounds(list, dads, leaves, elems, max, z, |list|, j);
    if i > 0 {
      InList(list, dads, leaves, elems, i);
      InList(list, dads, leaves, elems, j);
      var p, r := DadAt(list, dads, i), DadAt(list, dads, j);
      FathersDescend(list, dads, freq, i, j);
      assert BelowDad(list, dads, max, z, i) && BelowDad(list, dads, max, z, j);
      Apart(list, dads, leaves, elems, p, r);
      if p < r {
        DepthsAscend(list, dads, leaves, elems, max, z, freq, p, r);
      }
    }
  }

  lemma TreeIsMonotone(list: seq<int>, dads: seq<int>, leaves: set<int>, elems: int, max: nat, z: seq<int>,
                       freq: seq<int>, dl: seq<int>, dl0: seq<int>)
    requires Clamped(list, dads, leaves, elems, max, z, |list|) && Descending(list, freq)
    requires Paired(list[1..], dads[1..], freq)
    requires HalfWay(dl, dl0, list, dads, z, |list|)
    ensures RarerIsLonger(freq, dl, leaves)
  {
    hide Clamped, Paired;
    forall a, b | a in leaves && b in leaves && 0 <= a < |freq| && 0 <= b < |freq| && a < |dl| && b < |dl| &&
        freq[a] < freq[b]
      ensures dl[a] >= dl[b]
    {
      var q, r := ListedLeaf(list, dads, leaves, elems, max, z, a), ListedLeaf(list, dads, leaves, elems, max, z, b);
      DepthsAscend(list, dads, leaves, elems, max, z, freq, r, q);
    }
  }

  ghost function ListedLeaf(list: seq<int>, dads: seq<int>, leaves: set<int>, elems: int, max: nat, z: seq<int>,
                            a: int): (q: nat)
    requires Clamped(list, dads, leaves, elems, max, z, |list|) && a in leaves
    ensures q < |list| && list[q] == a
  {
    assert a in list;
    var q :| 0 <= q < |list| && list[q] == a;
    q
  }

  lemma FallsIsMonotone(list: seq<int>, dads: seq<int>, leaves: set<int>, elems: nat, freq: seq<int>, dl: seq<int>)
    requires Grown(list, dads, leaves, elems) && Descending(list, freq) && Falls(list, elems, dl, 0, 1)
    ensures RarerIsLonger(freq, dl, leaves)
  {
    forall a, b | a in leaves && b in leaves && 0 <= a < |freq| && 0 <= b < |freq| && a < |dl| && b < |dl| &&
        freq[a] < freq[b]
      ensures dl[a] >= dl[b]
    {
      var q :| 0 <= q < |list| && list[q] == a;
      var r :| 0 <= r < |list| && list[r] == b;
      assert r < q;
    }
  }

  // ---------- gen_bitlen ----------

  /** Everything the finished code lengths satisfy: exactly the leaves have one, they are within the limit, they fill
      the code space exactly, and bl_count counts them. */
  ghost predicate Lengths(lens: seq<int>, bl: seq<int>, leaves: set<int>, max: nat) {
    && (forall n :: 0 <= n < |lens| ==> if n in leaves then 1 <= lens[n] <= max else lens[n] == 0)
    && UsedKraft(lens, max) == Pow2(max)
    && |bl| == MAXBITS + 1 && bl[0] == 0 && forall b :: 1 <= b <= MAXBITS ==> bl[b] == Count(lens, b)
  }

  /** Sets the lengths of all leaves and adds the bits they need to the size of the block. */
  method GenBitlen(heap: array<int>, heapMax: nat, fc: array<int>, dl: array<int>, blCount: array<int>, maxCode: int,
                   desc: StaticDesc, optLen0: int, staticLen0: int, ghost list: seq<int>, ghost dads: seq<int>,
                   ghost leaves: set<int>)
    returns (optLen: int, staticLen: int)
    requires dl != heap && dl != fc && dl != blCount && blCount != heap && blCount != fc
    requires IsDesc(desc) && heap.Length == HEAP_SIZE && blCount.Length == MAXBITS + 1
    requires 0 <= heapMax <= HEAP_SIZE && heap[heapMax..] == list && Grown(list, dads, leaves, desc.elems)
    requires desc.elems <= dl.Length && desc.elems <= fc.Length
    requires NodesFit(list, dl.Length, fc.Length, maxCode, desc.elems)
    requires HoldsDads(dl[..], list, dads)
    requires forall n :: 0 <= n < desc.elems && n !in leaves ==> dl[n] == 0 && fc[n] == 0
    modifies dl, blCount
    ensures Lengths(dl[..desc.elems], blCount[..], leaves, desc.maxLength)
    ensures optLen == optLen0 + Cost(fc[..], dl[..desc.elems], desc, desc.elems)
    ensures staticLen == staticLen0 + StaticCost(fc[..], desc)
    ensures |list| == |dads| >= 1
    ensures Descending(list, fc[..]) && Paired(list[1..], dads[1..], fc[..]) ==> RarerIsLonger(fc[..], dl[..], leaves)
  {
    hide Grown, NodesFit, HoldsDads, IsDesc, Clamped, HalfWay, Count, UsedKraft, Pow2, CostSoFar, Cost, StaticSoFar,
         StaticCost, CountedAll, LeavesIn, Descending, Paired, RarerIsLonger, Repairing, Falls;
    DescParts(desc);
    GrownSize(list, dads, leaves, desc.elems);
    ghost var dl0: seq<int> := dl[..];
    var overflow;
    ghost var z, excess;
    overflow, optLen, staticLen, z, excess :=
      FirstPass(heap, heapMax, fc, dl, blCount, maxCode, desc, optLen0, staticLen0, list, dads, leaves);
    ghost var lens: seq<int>, bl: seq<int> := dl[..desc.elems], blCount[..];
    CostAll(fc[..], lens, desc, leaves);
    if Descending(list, fc[..]) && Paired(list[1..], dads[1..], fc[..]) {
      TreeIsMonotone(list, dads, leaves, desc.elems, desc.maxLength, z, fc[..], dl[..], dl0);
    }
    if overflow == 0 {
      return;
    }
    CanRepair(bl, lens, desc.maxLength, excess);
    Repair(blCount, desc.maxLength, overflow, excess, CountedAll(bl, desc.maxLength));
    optLen := HandOutAll(heap, heapMax, fc, dl, blCount, maxCode, desc, optLen, list, dads, leaves);
    Repaired(blCount[..], dl[..desc.elems], desc.maxLength, LeavesIn(list, desc.elems, |list|));
    if Descending(list, fc[..]) && Paired(list[1..], dads[1..], fc[..]) {
      FallsIsMonotone(list, dads, leaves, desc.elems, fc[..], dl[..]);
    }
  }

  lemma CostAll(freq: seq<int>, lens: seq<int>, desc: StaticDesc, leaves: set<int>)
    requires desc.elems <= |freq| && desc.elems == |lens| && desc.elems <= desc.extraBase + |desc.extraBits|
    requires desc.staticLen == [] || desc.elems <= |desc.staticLen|
    requires forall n :: 0 <= n < desc.elems && n !in leaves ==> freq[n] == 0
    requires forall n :: 0 <= n < desc.elems && n in leaves ==> lens[n] != 0
    ensures CostSoFar(freq, lens, lens, desc, desc.elems) == Cost(freq, lens, desc, desc.elems)
    ensures StaticSoFar(freq, lens, desc) == StaticCost(freq, desc)
  {
    CostWhole(freq, lens, lens, desc, desc.elems);
    if desc.staticLen != [] {
      CostWhole(freq, lens, desc.staticLen, desc, desc.elems);
    }
  }

  lemma Repaired(bl: seq<int>, lens: seq<int>, max: nat, leaves: nat)
    requires Repairing(bl, max, 0, leaves) && |bl| == MAXBITS + 1 && max <= MAXBITS
    requires forall b :: 1 <= b <= MAXBITS ==> Count(lens, b) == bl[b]
    ensures UsedKraft(lens, max) == Pow2(max) && bl[0] == 0
  {
    hide Count, UsedKraft, CountedKraft, CountedAll, Pow2;
    CountedIsUsed(bl, lens, max);
  }
}
