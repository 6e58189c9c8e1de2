/** The decoder's inverse transform: the packed T vector of the fast mode, and the pointer-reversed
    20-bit links with first-column search of the small mode. */
module InverseBwt {
  import opened Permutations
  import opened Counting
  import opened Bwt
  import opened Bytes

  /** cftab[c] is the number of column entries smaller than c. */
  ghost predicate Cumulative(cftab: seq<int>, l: seq<int>) {
    |cftab| == 257 && forall c :: 0 <= c <= 256 ==> cftab[c] == Below(l, c)
  }

  method Cumulate(unzftab: array<int>, ghost l: seq<int>) returns (cftab: array<int>)
    requires IsBytes(l) && unzftab.Length == 256
    requires forall c :: 0 <= c < 256 ==> unzftab[c] == Count(l, c)
    ensures fresh(cftab) && Cumulative(cftab[..], l)
  {
    cftab := new int[257];
    cftab[0] := 0;
    var i := 1;
    while i <= 256
      invariant 1 <= i <= 257 && cftab[0] == 0
      invariant forall c :: 1 <= c < i ==> cftab[c] == unzftab[c - 1]
    {
      cftab[i] := unzftab[i - 1];
      i := i + 1;
    }
    BelowNone(l, 0);
    i := 1;
    while i <= 256
      invariant 1 <= i <= 257
      invariant forall c :: 0 <= c < i ==> cftab[c] == Below(l, c)
      invariant forall c :: i <= c <= 256 ==> cftab[c] == Count(l, c - 1)
    {
      BelowStep(l, i - 1);
      cftab[i] := cftab[i] + cftab[i - 1];
      i := i + 1;
    }
  }

  /** The counting-sort cursors after the first i entries have been placed. */
  ghost predicate Cursors(cursor: seq<int>, l: seq<int>, i: nat)
    requires i <= |l|
  {
    |cursor| == 257 && forall c :: 0 <= c < 256 ==> cursor[c] == Below(l, c) + Count(l[..i], c)
  }

  lemma CursorsStart(cftab: seq<int>, l: seq<int>)
    requires Cumulative(cftab, l)
    ensures Cursors(cftab, l, 0)
  {
  }

  lemma CursorsStep(cursor: seq<int>, l: seq<int>, i: nat)
    requires i < |l| && IsBytes(l) && Cursors(cursor, l, i)
    ensures |cursor| == 257 && cursor[l[i]] == Place(l, i) < |l|
    ensures Cursors(cursor[l[i] := cursor[l[i]] + 1], l, i + 1)
  {
    PlaceBound(l, i);
    forall c | 0 <= c < 256
      ensures Count(l[..i+1], c) == Count(l[..i], c) + (if c == l[i] then 1 else 0)
    {
      CountAppend(l, i, c);
    }
  }

  // ---------- fast mode ----------

  /** A cell of the fast table: a byte below, a position above. */
  function Pack(low: int, high: int): int {
    low + high * 256
  }

  function LowByte(cell: int): int {
    cell % 256
  }

  function HighBits(cell: int): int {
    cell / 256
  }

  lemma Unpack(low: int, high: int)
    requires 0 <= low < 256
    ensures LowByte(Pack(low, high)) == low && HighBits(Pack(low, high)) == high
  {
  }

  /** Low byte: the column; upper bits: where the entry that sorts here stands, if already placed. */
  ghost predicate FastPacked(tt: seq<int>, l: seq<int>, p: seq<int>, i: nat) {
    && |p| == |l| <= |tt|
    && forall j :: 0 <= j < |l| ==> tt[j] == Pack(l[j], if p[j] < i then p[j] else 0)
  }

  method BuildFast(tt: array<int>, cftab: array<int>, nblock: nat, ghost l: seq<int>)
    requires tt != cftab && IsBytes(l) && nblock == |l| <= tt.Length
    requires tt[..nblock] == l && Cumulative(cftab[..], l)
    modifies tt, cftab
    ensures FastPacked(tt[..], l, Listing(l), nblock)
  {
    ghost var p := Listing(l);
    FastStart(tt[..], l, p);
    CursorsStart(cftab[..], l);
    hide *;
    var i := 0;
    while i < nblock
      invariant 0 <= i <= nblock
      invariant Cursors(cftab[..], l, i) && FastPacked(tt[..], l, p, i)
    {
      PlaceOne(tt, cftab, i, l, p);
      i := i + 1;
    }
  }

  method PlaceOne(tt: array<int>, cftab: array<int>, i: nat, ghost l: seq<int>, ghost p: seq<int>)
    requires tt != cftab && IsBytes(l) && i < |l| <= tt.Length && Unplaces(l, p) && IsPerm(p, |l|)
    requires Cursors(cftab[..], l, i) && FastPacked(tt[..], l, p, i)
    modifies tt, cftab
    ensures Cursors(cftab[..], l, i + 1) && FastPacked(tt[..], l, p, i + 1)
  {
    ghost var t: seq<int>, cur: seq<int> := tt[..], cftab[..];
    CursorsStep(cur, l, i);
    FastStep(t, l, p, i);
    hide *;
    var uc := LowByte(tt[i]);
    var k := cftab[uc];
    assert tt[k] < 256;  // the upper bits of the cell are still clear, so OR-ing into them is adding
    tt[k] := tt[k] + i * 256;
    assert tt[..] == t[k := t[k] + i * 256];
    cftab[uc] := cftab[uc] + 1;
    assert cftab[..] == cur[uc := cur[uc] + 1];
  }

  lemma FastStart(tt: seq<int>, l: seq<int>, p: seq<int>)
    requires |l| <= |tt| && tt[..|l|] == l && IsPerm(p, |l|)
    ensures FastPacked(tt, l, p, 0)
  {
  }

  lemma FastStep(tt: seq<int>, l: seq<int>, p: seq<int>, i: nat)
    requires IsBytes(l) && FastPacked(tt, l, p, i) && i < |l|
    requires Unplaces(l, p) && IsPerm(p, |l|)
    ensures 0 <= l[i] < 256
    ensures Place(l, i) < |l| <= |tt| && 0 <= tt[Place(l, i)] < 256 && LowByte(tt[i]) == l[i]
    ensures FastPacked(tt[Place(l, i) := tt[Place(l, i)] + i * 256], l, p, i + 1)
  {
    var k := Place(l, i);
    PlaceBound(l, i);
    assert p[k] == i;
    Unpack(l[i], if p[i] < i then p[i] else 0);
    forall j | 0 <= j < |l| && j != k
      ensures p[j] != i
    {
    }
  }

  // ---------- small mode ----------

  /** The 20-bit link i: 16 bits in ll16, 4 in the low or high half of a byte of ll4. */
  function Nibble(ll4: seq<int>, i: nat): int
    requires i / 2 < |ll4|
  {
    if i % 2 == 0 then ll4[i / 2] % 16 else ll4[i / 2] / 16 % 16
  }

  function Link(ll16: seq<int>, ll4: seq<int>, i: nat): int
    requires i < |ll16| && i / 2 < |ll4|
  {
    ll16[i] + Nibble(ll4, i) * 65536
  }

  ghost predicate LinkShape(ll16: seq<int>, ll4: seq<int>) {
    |ll4| * 2 >= |ll16| && forall k :: 0 <= k < |ll4| ==> 0 <= ll4[k] < 256
  }

  lemma ShapeIndex(ll16: seq<int>, ll4: seq<int>)
    requires LinkShape(ll16, ll4)
    ensures forall i :: 0 <= i < |ll16| ==> i / 2 < |ll4|
  {
  }

  /** The links of the first n positions. */
  ghost function Links(ll16: seq<int>, ll4: seq<int>, n: nat): (r: seq<int>)
    requires LinkShape(ll16, ll4) && n <= |ll16|
    ensures |r| == n
  {
    ShapeIndex(ll16, ll4);
    seq(n, i requires 0 <= i < n => Link(ll16, ll4, i))
  }

  method SetLink(ll16: array<int>, ll4: array<int>, i: nat, n: nat)
    requires ll16 != ll4 && LinkShape(ll16[..], ll4[..]) && i < ll16.Length && n < 0x10_0000
    modifies ll16, ll4
    ensures LinkShape(ll16[..], ll4[..])
    ensures Link(ll16[..], ll4[..], i) == n && ll16[i] == n % 65536
    ensures forall k :: 0 <= k < ll16.Length && k != i ==> ll16[k] == old(ll16[k])
    ensures forall k :: 0 <= k < ll16.Length && k != i ==>
              Link(ll16[..], ll4[..], k) == Link(old(ll16[..]), old(ll4[..]), k)
  {
    ll16[i] := n % 65536;
    var hi := n / 65536;
    if i % 2 == 0 {
      ll4[i / 2] := ll4[i / 2] / 16 * 16 + hi;
    } else {
      ll4[i / 2] := ll4[i / 2] % 16 + hi * 16;
    }
  }

  method GetLink(ll16: array<int>, ll4: array<int>, i: nat) returns (n: int)
    requires LinkShape(ll16[..], ll4[..]) && i < ll16.Length
    ensures n == Link(ll16[..], ll4[..], i)
  {
    n := ll16[i] + (if i % 2 == 0 then ll4[i / 2] % 16 else ll4[i / 2] / 16 % 16) * 65536;
  }

  /** The first i positions hold their places, the others still their column byte. */
  ghost predicate HalfLinked(ll16: seq<int>, ll4: seq<int>, l: seq<int>, i: nat) {
    && LinkShape(ll16, ll4) && i <= |l| <= |ll16|
    && (forall k :: 0 <= k < i ==> Link(ll16, ll4, k) == Place(l, k))
    && (forall k :: i <= k < |l| ==> ll16[k] == l[k])
  }

  method LinkOne(ll16: array<int>, ll4: array<int>, cftabCopy: array<int>, i: nat, ghost l: seq<int>)
    requires ll16 != ll4 && ll16 != cftabCopy && ll4 != cftabCopy && IsBytes(l) && i < |l| < 0x10_0000
    requires Cursors(cftabCopy[..], l, i) && HalfLinked(ll16[..], ll4[..], l, i)
    modifies ll16, ll4, cftabCopy
    ensures Cursors(cftabCopy[..], l, i + 1) && HalfLinked(ll16[..], ll4[..], l, i + 1)
  {
    ghost var cur: seq<int> := cftabCopy[..];
    CursorsStep(cur, l, i);
    hide Cursors, Link, Nibble, Place;
    var uc := ll16[i] % 256;
    SetLink(ll16, ll4, i, cftabCopy[uc]);
    cftabCopy[uc] := cftabCopy[uc] + 1;
    assert cftabCopy[..] == cur[uc := cur[uc] + 1];
  }

  /** Computes the T vector into the links. */
  method BuildLinks(ll16: array<int>, ll4: array<int>, cftab: array<int>, nblock: nat, ghost l: seq<int>)
    requires ll16 != ll4 && ll16 != cftab && ll4 != cftab && IsBytes(l) && nblock == |l| < 0x10_0000
    requires nblock <= ll16.Length && LinkShape(ll16[..], ll4[..]) && ll16[..nblock] == l
    requires Cumulative(cftab[..], l)
    modifies ll16, ll4
    ensures LinkShape(ll16[..], ll4[..]) && Links(ll16[..], ll4[..], nblock) == Places(l)
  {
    var cftabCopy := new int[257](c requires 0 <= c < 257 reads cftab => cftab[c]);
    assert cftabCopy[..] == cftab[..];
    CursorsStart(cftabCopy[..], l);
    assert forall k :: 0 <= k < |l| ==> ll16[..nblock][k] == l[k];
    var i := 0;
    while i < nblock
      invariant 0 <= i <= nblock && fresh(cftabCopy)
      invariant Cursors(cftabCopy[..], l, i) && HalfLinked(ll16[..], ll4[..], l, i)
    {
      LinkOne(ll16, ll4, cftabCopy, i, l);
      i := i + 1;
    }
    LinkedPlaces(ll16[..], ll4[..], l);
  }

  lemma LinkedPlaces(ll16: seq<int>, ll4: seq<int>, l: seq<int>)
    requires HalfLinked(ll16, ll4, l, |l|)
    ensures Links(ll16, ll4, |l|) == Places(l)
  {
  }

  // ---------- pointer reversal ----------

  ghost predicate Inverse(t: seq<int>, p: seq<int>) {
    && IsPerm(t, |t|) && IsPerm(p, |t|)
    && forall x :: 0 <= x < |t| ==> p[t[x]] == x
  }

  /** Part-way through the reversal along o's cycle: the positions in seen already point backwards. */
  ghost predicate Reversing(links: seq<int>, t: seq<int>, p: seq<int>, o: int, i: int, j: int, seen: set<int>) {
    && Inverse(t, p) && |links| == |t| == |p|
    && 0 <= o < |t| && 0 <= i < |t| && j == t[i]
    && seen <= Range(|t|) && o !in seen && (i == o || i in seen)
    && (forall x :: x in seen ==> (p[x] == o || p[x] in seen) && p[x] != i)
    && (forall x :: 0 <= x < |t| ==> links[x] == if x in seen then p[x] else t[x])
  }

  /** The whole cycle of o points backwards. */
  ghost predicate Reversed(links: seq<int>, p: seq<int>, o: int, cycle: set<int>) {
    && |links| == |p| && IsPerm(p, |p|) && o in cycle && cycle <= Range(|p|)
    && forall x :: x in cycle ==> links[x] == p[x] && p[x] in cycle
  }

  lemma ReverseNext(links: seq<int>, t: seq<int>, p: seq<int>, o: int, i: int, j: int, seen: set<int>)
    requires Reversing(links, t, p, o, i, j, seen)
    ensures 0 <= j < |links| == |t| == |p| && 0 <= i < |links| && j !in seen && p[j] == i && links[j] == t[j]
  {
    assert p[t[i]] == i;
  }

  lemma ReverseGo(links: seq<int>, t: seq<int>, p: seq<int>, o: int, i: int, j: int, seen: set<int>)
    requires Reversing(links, t, p, o, i, j, seen) && j != o
    requires 0 <= j < |links| == |t| == |p| && j !in seen && p[j] == i && links[j] == t[j]
    ensures Reversing(links[j := i], t, p, o, j, t[j], seen + {j})
  {
    hide Inverse;
  }

  lemma ReverseStop(links: seq<int>, t: seq<int>, p: seq<int>, o: int, i: int, j: int, seen: set<int>)
    requires Reversing(links, t, p, o, i, j, seen) && j == o
    requires 0 <= j < |links| == |t| == |p| && j !in seen && p[j] == i && links[j] == t[j]
    ensures Reversed(links[j := i], p, o, seen + {o})
  {
  }

  lemma ReverseStep(links: seq<int>, t: seq<int>, p: seq<int>, o: int, i: int, j: int, seen: set<int>)
    requires Reversing(links, t, p, o, i, j, seen)
    ensures 0 <= j < |links| && 0 <= i < |links| && j !in seen
    ensures j != o ==> Reversing(links[j := i], t, p, o, j, links[j], seen + {j})
    ensures j == o ==> Reversed(links[j := i], p, o, seen + {o})
  {
    ReverseNext(links, t, p, o, i, j, seen);
    hide Reversing, Reversed;
    if j == o {
      ReverseStop(links, t, p, o, i, j, seen);
    } else {
      ReverseGo(links, t, p, o, i, j, seen);
    }
  }

  method ReverseLinks(ll16: array<int>, ll4: array<int>, origPtr: nat, nblock: nat, ghost l: seq<int>)
    returns (ghost cycle: set<int>)
    requires ll16 != ll4 && origPtr < nblock == |l| < 0x10_0000 && nblock <= ll16.Length
    requires LinkShape(ll16[..], ll4[..]) && Links(ll16[..], ll4[..], nblock) == Places(l)
    modifies ll16, ll4
    ensures LinkShape(ll16[..], ll4[..])
    ensures Reversed(Links(ll16[..], ll4[..], nblock), Listing(l), origPtr, cycle)
  {
    ghost var t, p := Places(l), Listing(l);
    ReverseStart(l, origPtr);
    cycle := {};
    var i := origPtr;
    var j := GetLink(ll16, ll4, i);
    assert Links(ll16[..], ll4[..], nblock)[i] == j;
    assert Reversing(Links(ll16[..], ll4[..], nblock), t, p, origPtr, i, j, cycle);
    var first := true;
    while first || i != origPtr
      invariant LinkShape(ll16[..], ll4[..])
      invariant first || i != origPtr ==> Reversing(Links(ll16[..], ll4[..], nblock), t, p, origPtr, i, j, cycle)
      invariant !first && i == origPtr ==> Reversed(Links(ll16[..], ll4[..], nblock), p, origPtr, cycle)
      invariant cycle <= Range(nblock)
      decreases nblock - |cycle|
    {
      first := false;
      i, j, cycle := ReverseOne(ll16, ll4, origPtr, nblock, i, j, t, p, cycle);
    }
  }

  method ReverseOne(ll16: array<int>, ll4: array<int>, origPtr: nat, nblock: nat, i0: int, j0: int,
                    ghost t: seq<int>, ghost p: seq<int>, ghost seen: set<int>)
    returns (i: int, j: int, ghost cycle: set<int>)
    requires ll16 != ll4 && origPtr < nblock == |t| < 0x10_0000 && nblock <= ll16.Length
    requires LinkShape(ll16[..], ll4[..])
    requires Reversing(Links(ll16[..], ll4[..], nblock), t, p, origPtr, i0, j0, seen)
    modifies ll16, ll4
    ensures LinkShape(ll16[..], ll4[..])
    ensures i != origPtr ==> Reversing(Links(ll16[..], ll4[..], nblock), t, p, origPtr, i, j, cycle)
    ensures i == origPtr ==> Reversed(Links(ll16[..], ll4[..], nblock), p, origPtr, cycle)
    ensures cycle <= Range(nblock) && |seen| < |cycle| <= nblock
  {
    ghost var links := Links(ll16[..], ll4[..], nblock);
    ReverseStep(links, t, p, origPtr, i0, j0, seen);
    cycle := seen + {j0};
    SubsetSize(cycle, Range(nblock)) by {
      assert seen <= Range(nblock);
    }
    hide Reversing, Reversed, Link, Nibble;
    var tmp := GetLink(ll16, ll4, j0);
    SetLink(ll16, ll4, j0, i0);
    assert Links(ll16[..], ll4[..], nblock) == links[j0 := i0];
    i, j := j0, tmp;
  }

  lemma ReverseStart(l: seq<int>, o: nat)
    requires o < |l|
    ensures Reversing(Places(l), Places(l), Listing(l), o, o, Places(l)[o], {})
  {
    var t, p := Places(l), Listing(l);
    PlacesPerm(l);
    assert forall x :: 0 <= x < |l| ==> t[x] == Place(l, x);
    InversePerm(t, p, |l|);
  }

  // ---------- first-column search ----------

  method IndexIntoF(indx: int, cftab: array<int>) returns (nb: int)
    requires cftab.Length == 257 && cftab[0] <= indx < cftab[256]
    ensures 0 <= nb < 256 && cftab[nb] <= indx < cftab[nb + 1]
  {
    nb := 0;
    var na := 256;
    while na - nb != 1
      invariant 0 <= nb < na <= 256 && cftab[nb] <= indx < cftab[na]
      decreases na - nb
    {
      var mid := (nb + na) / 2;
      if indx >= cftab[mid] {
        nb := mid;
      } else {
        na := mid;
      }
    }
  }

  /** Searching the cumulative table for row j finds the byte that stands there in sorted order. */
  lemma FirstColumn(l: seq<int>, j: nat, c: int)
    requires j < |l| && Below(l, c) <= j < Below(l, c + 1)
    ensures l[Listing(l)[j]] == c
  {
    var i := Listing(l)[j];
    UnplacesInverse(l, Listing(l), j);
    CountWhole(l, l[i], i);
    BelowStep(l, l[i]);
    if l[i] < c {
      BelowMonotone(l, l[i] + 1, c);
    } else if l[i] > c {
      BelowMonotone(l, c + 1, l[i]);
    }
  }

  // ---------- rows and bytes drawn ----------

  /** The row the decoder stands on after k steps from the primary index. */
  ghost function Row(l: seq<int>, o: nat, k: nat): (r: nat)
    requires o < |l|
    ensures r < |l|
  {
    Walk(Listing(l), o, k)
  }

  /** The fast table is complete for column l. */
  ghost predicate FastTable(tt: seq<int>, l: seq<int>) {
    IsBytes(l) && FastPacked(tt, l, Listing(l), |l|)
  }

  /** The links run backwards along the cycle of the primary index o. */
  ghost predicate SmallTable(links: seq<int>, l: seq<int>, o: nat, cycle: set<int>) {
    o < |l| == |links| && Reversed(links, Listing(l), o, cycle)
  }

  /** The fast table is complete and cursor is the row before the k-th byte is drawn. */
  ghost predicate FastAt(tt: seq<int>, l: seq<int>, o: nat, k: nat, cursor: int) {
    o < |l| && FastTable(tt, l) && cursor == Row(l, o, k + 1)
  }

  /** The links are reversed, the cumulative table is in place and cursor is the row before the k-th byte. */
  ghost predicate SmallAt(ll16: seq<int>, ll4: seq<int>, cftab: seq<int>, l: seq<int>, o: nat, k: nat, cursor: int,
                          cycle: set<int>) {
    && |l| <= |ll16| && LinkShape(ll16, ll4) && IsBytes(l) && Cumulative(cftab, l)
    && SmallTable(Links(ll16, ll4, |l|), l, o, cycle) && cursor == Row(l, o, k)
  }

  /** The k-th byte the decoder draws. */
  ghost function Drawn(l: seq<int>, o: nat, k: nat): int
    requires o < |l|
  {
    l[Row(l, o, k + 1)]
  }

  lemma FastNext(tt: seq<int>, l: seq<int>, o: nat, k: nat, cursor: int)
    requires FastAt(tt, l, o, k, cursor)
    ensures 0 <= cursor < |l| <= |tt| && o < |l| && 0 <= Drawn(l, o, k) < 256
    ensures LowByte(tt[cursor]) == Drawn(l, o, k)
    ensures FastAt(tt, l, o, k + 1, HighBits(tt[cursor]))
  {
    Unpack(l[cursor], Listing(l)[cursor]);
  }

  lemma {:induction false} RowInCycle(links: seq<int>, l: seq<int>, o: nat, cycle: set<int>, k: nat)
    requires SmallTable(links, l, o, cycle)
    ensures Row(l, o, k) in cycle && links[Row(l, o, k)] == Row(l, o, k + 1)
  {
    hide IsPerm, Unplaces;
    if k > 0 {
      RowInCycle(links, l, o, cycle, k - 1);
    }
  }

  lemma SmallRow(links: seq<int>, l: seq<int>, o: nat, cycle: set<int>, k: nat)
    requires SmallTable(links, l, o, cycle)
    ensures o < |l| == |links| && links[Row(l, o, k)] == Row(l, o, k + 1)
  {
    RowInCycle(links, l, o, cycle, k);
  }

  lemma SmallNext(ll16: seq<int>, ll4: seq<int>, cftab: seq<int>, l: seq<int>, o: nat, k: nat, cursor: int,
                  cycle: set<int>)
    requires SmallAt(ll16, ll4, cftab, l, o, k, cursor, cycle)
    ensures 0 <= cursor < |l| <= |ll16| && o < |l| && LinkShape(ll16, ll4) && cursor / 2 < |ll4|
    ensures |cftab| == 257 && cftab[0] <= cursor < cftab[256]
    ensures SmallAt(ll16, ll4, cftab, l, o, k + 1, Link(ll16, ll4, cursor), cycle)
  {
    hide Link, Nibble, Below, SmallTable, Row;
    SmallRow(Links(ll16, ll4, |l|), l, o, cycle, k);
    BelowNone(l, 0);
    BelowAll(l, 256);
    ShapeIndex(ll16, ll4);
    assert Links(ll16, ll4, |l|)[cursor] == Link(ll16, ll4, cursor);
  }

  /** The byte found by first-column search on the row is the byte drawn. */
  lemma SmallByte(ll16: seq<int>, ll4: seq<int>, cftab: seq<int>, l: seq<int>, o: nat, k: nat, cursor: int,
                  cycle: set<int>, c: int)
    requires SmallAt(ll16, ll4, cftab, l, o, k, cursor, cycle)
    requires 0 <= c < 256 && |cftab| == 257 && cftab[c] <= cursor < cftab[c + 1]
    ensures o < |l| && Drawn(l, o, k) == c
  {
    FirstColumn(l, cursor, c);
  }

  ghost predicate FastOn(tt: array<int>, l: seq<int>, o: nat, k: nat, cursor: int)
    reads tt
  {
    FastAt(tt[..], l, o, k, cursor)
  }

  ghost predicate SmallOn(ll16: array<int>, ll4: array<int>, cftab: array<int>,
                          l: seq<int>, o: nat, k: nat, cursor: int, cycle: set<int>)
    reads ll16, ll4, cftab
  {
    SmallAt(ll16[..], ll4[..], cftab[..], l, o, k, cursor, cycle)
  }

  lemma FastFirst(tt: array<int>, l: seq<int>, o: nat)
    requires IsBytes(l) && FastPacked(tt[..], l, Listing(l), |l|) && o < |l|
    ensures |l| <= tt.Length && FastOn(tt, l, o, 0, HighBits(tt[o]))
  {
    Unpack(l[o], Listing(l)[o]);
    assert Row(l, o, 0) == o;
  }

  lemma SmallFirst(ll16: array<int>, ll4: array<int>, cftab: array<int>, l: seq<int>, o: nat, cycle: set<int>)
    requires IsBytes(l) && o < |l| <= ll16.Length && LinkShape(ll16[..], ll4[..])
    requires Cumulative(cftab[..], l) && Reversed(Links(ll16[..], ll4[..], |l|), Listing(l), o, cycle)
    ensures SmallOn(ll16, ll4, cftab, l, o, 0, o, cycle)
  {
  }

  /** BZ_GET_FAST: the byte in the cell under the cursor, and the row its upper bits name. */
  method DrawFast(tt: array<int>, cursor: int, limit: nat, ghost l: seq<int>, ghost o: nat, ghost k: nat)
    returns (c: int, next: int)
    requires |l| <= limit && FastOn(tt, l, o, k, cursor)
    ensures o < |l| && c == Drawn(l, o, k) && 0 <= c < 256
    ensures FastOn(tt, l, o, k + 1, next)
  {
    hide FastAt, Drawn, LowByte, HighBits;
    FastNext(tt[..], l, o, k, cursor);
    assert cursor < limit;  // so the range check on the cursor never reports corruption
    var cell := tt[cursor];
    c, next := LowByte(cell), HighBits(cell);
  }

  /** BZ_GET_SMALL: the first-column byte of the row under the cursor, and the row its link names. */
  method DrawSmall(ll16: array<int>, ll4: array<int>, cftab: array<int>, cursor: int, limit: nat,
                   ghost l: seq<int>, ghost o: nat, ghost k: nat, ghost cycle: set<int>)
    returns (c: int, next: int)
    requires |l| <= limit && SmallOn(ll16, ll4, cftab, l, o, k, cursor, cycle)
    ensures o < |l| && c == Drawn(l, o, k) && 0 <= c < 256
    ensures SmallOn(ll16, ll4, cftab, l, o, k + 1, next, cycle)
  {
    hide SmallAt, Drawn, Link, LinkShape;
    SmallNext(ll16[..], ll4[..], cftab[..], l, o, k, cursor, cycle);
    assert cursor < limit;  // so the range check on the cursor never reports corruption
    c := IndexIntoF(cursor, cftab);
    SmallByte(ll16[..], ll4[..], cftab[..], l, o, k, cursor, cycle, c);
    next := GetLink(ll16, ll4, cursor);
  }

  /** Everything the small mode does between the column and its first byte. */
  method PrepareSmall(ll16: array<int>, ll4: array<int>, unzftab: array<int>, nblock: nat, origPtr: nat, limit: nat,
                      ghost l: seq<int>)
    returns (cftab: array<int>, c: int, next: int, ghost cycle: set<int>)
    requires IsBytes(l) && origPtr < nblock == |l| <= ll16.Length && nblock <= limit
    requires nblock < 0x10_0000 && ll16 != ll4 && ll16 != unzftab && ll4 != unzftab
    requires ll16[..nblock] == l && LinkShape(ll16[..], ll4[..]) && unzftab.Length == 256
    requires forall c :: 0 <= c < 256 ==> unzftab[c] == Count(l, c)
    modifies ll16, ll4
    ensures fresh(cftab) && c == Drawn(l, origPtr, 0) && 0 <= c < 256
    ensures SmallOn(ll16, ll4, cftab, l, origPtr, 1, next, cycle)
  {
    hide SmallOn, Link, LinkShape, Links, Reversed, Cumulative, Places, Listing, Drawn;
    cftab := Cumulate(unzftab, l);
    BuildLinks(ll16, ll4, cftab, nblock, l);
    cycle := ReverseLinks(ll16, ll4, origPtr, nblock, l);
    SmallFirst(ll16, ll4, cftab, l, origPtr, cycle);
    c, next := DrawSmall(ll16, ll4, cftab, origPtr, limit, l, origPtr, 0, cycle);
  }

  /** The decoder's checks on the tallies and on the table never fail: no byte occurs more often than there are
      entries, and the table rises from zero to the length of the column. */
  lemma CumulativeInRange(cftab: seq<int>, l: seq<int>)
    requires IsBytes(l) && Cumulative(cftab, l)
    ensures forall c :: 0 <= c <= 256 ==> 0 <= Count(l, c) <= |l| && 0 <= cftab[c] <= |l|
    ensures forall c, d :: 0 <= c <= d <= 256 ==> cftab[c] <= cftab[d]
    ensures cftab[0] == 0 && cftab[256] == |l|
  {
    BelowNone(l, 0);
    BelowAll(l, 256);
    forall c, d | 0 <= c <= d <= 256
      ensures cftab[c] <= cftab[d]
    {
      BelowMonotone(l, c, d);
    }
  }
}
