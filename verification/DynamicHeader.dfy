/** The header of a block with its own trees: the counts, the lengths of the bit length code in their order of
    transmission, and with that code the lengths of both trees (section 3.2.7 of RFC 1951). */
module DynamicHeader {
  import opened Bits
  import opened CodeLengthCode
  import opened DeflateCodes
  import opened InflateTable
  import opened LengthCodes
  import opened TableBuilder
  import opened ZBits

  // ---------- the order of transmission ----------

  /** bl_order, and inflate's order. */
  function BlOrder(rank: nat): (s: nat)
    requires rank < BL_CODES
    ensures s < BL_CODES
  {
    if rank <= 2 then 16 + rank else if rank == 3 then 0 else if rank % 2 == 0 then 6 + rank / 2 else 9 - rank / 2
  }

  /** Where a symbol stands in that order. */
  function BlRank(s: nat): (r: nat)
    requires s < BL_CODES
    ensures r < BL_CODES && BlOrder(r) == s
  {
    if s >= 16 then s - 16 else if s == 0 then 3 else if s >= 8 then 2 * (s - 6) else 2 * (9 - s) + 1
  }

  /** No symbol comes twice. */
  lemma OrderApart(i: nat, j: nat)
    requires i < BL_CODES && j < BL_CODES
    ensures BlOrder(i) == BlOrder(j) <==> i == j
  {
  }

  /** The lengths of the first n symbols in the order, three bits each. */
  function OrderBits(bl: seq<int>, n: nat): (b: seq<bool>)
    requires |bl| == BL_CODES && n <= BL_CODES && forall s :: 0 <= s < BL_CODES ==> 0 <= bl[s]
    ensures |b| == 3 * n
  {
    if n == 0 then [] else OrderBits(bl, n - 1) + BitsOf(bl[BlOrder(n - 1)], 3)
  }

  /** The lengths of those symbols, and zeros for the others. */
  ghost predicate Ordered(lens: seq<int>, bl: seq<int>, n: nat) {
    |lens| == |bl| == BL_CODES && n <= BL_CODES
    && forall r :: 0 <= r < BL_CODES ==> lens[BlOrder(r)] == if r < n then bl[BlOrder(r)] else 0
  }

  /** All lengths are there once the ones behind are all zero. */
  lemma OrderedAll(lens: seq<int>, bl: seq<int>, n: nat)
    requires Ordered(lens, bl, n) && forall r :: n <= r < BL_CODES ==> bl[BlOrder(r)] == 0
    ensures lens == bl
  {
    forall s | 0 <= s < BL_CODES
      ensures lens[s] == bl[s]
    {
      assert s == BlOrder(BlRank(s));
    }
  }

  // ---------- reading ----------

  /** LENLENS: the lengths for the ranks from r on, n altogether. */
  ghost function ReadOrder(bits: seq<bool>, lens: seq<int>, r: nat, n: nat): (x: Read<seq<int>>)
    requires |lens| == BL_CODES && r <= n <= BL_CODES
    ensures x.Val? ==> |x.value| == BL_CODES
    decreases n - r
  {
    if r == n then Val(lens, bits)
    else
      match TakeLow(bits, 3)
      case Val(v, rest) => ReadOrder(rest, lens[BlOrder(r) := v], r + 1, n)
      case _ => Short
  }

  /** The lengths of the two codes of a block. */
  datatype Codes = Codes(ll: seq<int>, dl: seq<int>)

  /** Codes that inflate goes on with. */
  ghost predicate Usable(c: Codes) {
    257 <= |c.ll| <= L_CODES && 1 <= |c.dl| <= D_CODES && IsLens(c.ll) && IsLens(c.dl)
    && c.ll[256] != 0 && !Rejected(LENS, c.ll) && !Rejected(DISTS, c.dl)
  }

  /** CODELENS and after: the lengths of both codes by the bit length code. */
  ghost function ReadCodes(bl: seq<int>, bits: seq<bool>, nlen: nat, ndist: nat): Read<Codes>
    requires |bl| == BL_CODES
  {
    if Rejected(CODES, bl) then Bad
    else
      match ReadLens(bl, bits, [], nlen + ndist)
      case Short => Short
      case Bad => Bad
      case Val(lens, rest) =>
        if |lens| == nlen + ndist && Usable(Codes(lens[..nlen], lens[nlen..]))
        then Val(Codes(lens[..nlen], lens[nlen..]), rest)
        else Bad
  }

  lemma TakeBound(bits: seq<bool>, n: nat)
    ensures TakeLow(bits, n).Val? ==> TakeLow(bits, n).value < Pow2(n)
  {
    if n <= |bits| {
      ValueBound(bits[..n]);
    }
  }

  /** TABLE: how many lengths of each kind there are. */
  datatype Counts = Counts(nlen: nat, ndist: nat, ncode: nat)

  function ReadCounts(bits: seq<bool>): (r: Read<Counts>)
    ensures r.Val? ==> r.value.ncode <= BL_CODES
  {
    match TakeLow(bits, 5)
    case Val(a, b1) =>
      (match TakeLow(b1, 5)
       case Val(b, b2) =>
         (match TakeLow(b2, 4)
          case Val(c, b3) =>
            TakeBound(b2, 4);
            assert Pow2(4) == 16;
            if a + 257 > L_CODES || b + 1 > D_CODES then Bad else Val(Counts(a + 257, b + 1, c + 4), b3)
          case _ => Short)
       case _ => Short)
    case _ => Short
  }

  /** TABLE to CODELENS: the whole header. */
  ghost function ReadHeader(bits: seq<bool>): Read<Codes> {
    match ReadCounts(bits)
    case Short => Short
    case Bad => Bad
    case Val(k, rest) =>
      match ReadOrder(rest, NoLens(), 0, k.ncode)
      case Short => Short
      case Bad => Bad
      case Val(bl, after) => ReadCodes(bl, after, k.nlen, k.ndist)
  }

  function NoLens(): (s: seq<int>)
    ensures |s| == BL_CODES
  {
    seq(BL_CODES, i => 0)
  }

  // ---------- what was sent is read back ----------

  /** A bit length code whose lengths fit three bits, all of them among the first n of the order. */
  ghost predicate IsBl(bl: seq<int>, n: nat) {
    |bl| == BL_CODES && 4 <= n <= BL_CODES && (forall s :: 0 <= s < BL_CODES ==> 0 <= bl[s] <= 7)
    && forall r :: n <= r < BL_CODES ==> bl[BlOrder(r)] == 0
  }

  lemma {:induction false} OrderSent(bl: seq<int>, lens: seq<int>, r: nat, n: nat, rest: seq<bool>)
    requires IsBl(bl, n) && r <= n && Ordered(lens, bl, r)
    ensures ReadOrder(OrderBits(bl, n)[3 * r..] + rest, lens, r, n) == Val(bl, rest)
    decreases n - r
  {
    hide TakeLow, BitsOf, BlOrder;
    var b := OrderBits(bl, n)[3 * r..];
    if r == n {
      assert b + rest == rest;
      OrderedAll(lens, bl, n);
    } else {
      OrderCut(bl, r, n);
      ThreeBits(bl[BlOrder(r)]);
      var more := OrderBits(bl, n)[3 * (r + 1)..];
      assert b + rest == BitsOf(bl[BlOrder(r)], 3) + (more + rest);
      TakeSent(bl[BlOrder(r)], 3, more + rest);
      OrderedNext(lens, bl, r);
      OrderSent(bl, lens[BlOrder(r) := bl[BlOrder(r)]], r + 1, n, rest);
    }
  }

  lemma ThreeBits(v: int)
    requires 0 <= v <= 7
    ensures v < Pow2(3)
  {
    assert Pow2(3) == 8;
  }

  lemma {:induction false} OrderCut(bl: seq<int>, r: nat, n: nat)
    requires |bl| == BL_CODES && r < n <= BL_CODES && forall s :: 0 <= s < BL_CODES ==> 0 <= bl[s]
    ensures OrderBits(bl, n)[3 * r..] == BitsOf(bl[BlOrder(r)], 3) + OrderBits(bl, n)[3 * (r + 1)..]
    decreases n
  {
    hide BitsOf, BlOrder;
    if r + 1 < n {
      OrderCut(bl, r, n - 1);
      var a := OrderBits(bl, n - 1);
      assert OrderBits(bl, n) == a + BitsOf(bl[BlOrder(n - 1)], 3);
      assert OrderBits(bl, n)[3 * r..] == a[3 * r..] + BitsOf(bl[BlOrder(n - 1)], 3);
      assert OrderBits(bl, n)[3 * (r + 1)..] == a[3 * (r + 1)..] + BitsOf(bl[BlOrder(n - 1)], 3);
    }
  }

  lemma OrderedNext(lens: seq<int>, bl: seq<int>, r: nat)
    requires Ordered(lens, bl, r) && r < BL_CODES
    ensures Ordered(lens[BlOrder(r) := bl[BlOrder(r)]], bl, r + 1)
  {
    hide BlOrder;
    forall i | 0 <= i < BL_CODES
      ensures BlOrder(i) == BlOrder(r) <==> i == r
    {
      OrderApart(i, r);
    }
  }

  /** The header as it is sent. */
  ghost function HeaderBits(c: Codes, bl: seq<int>, n: nat): seq<bool>
    requires 257 <= |c.ll| && 1 <= |c.dl| && IsBl(bl, n) && Sendable(bl, TreeItems(c.ll) + TreeItems(c.dl))
  {
    CountBits(|c.ll|, |c.dl|, n) + OrderBits(bl, n) + ItemsBits(bl, TreeItems(c.ll) + TreeItems(c.dl))
  }

  function CountBits(nlen: nat, ndist: nat, n: nat): seq<bool>
    requires 257 <= nlen && 1 <= ndist && 4 <= n
  {
    BitsOf(nlen - 257, 5) + BitsOf(ndist - 1, 5) + BitsOf(n - 4, 4)
  }

  lemma CountsSent(nlen: nat, ndist: nat, n: nat, rest: seq<bool>)
    requires 257 <= nlen <= L_CODES && 1 <= ndist <= D_CODES && 4 <= n <= BL_CODES
    ensures ReadCounts(CountBits(nlen, ndist, n) + rest) == Val(Counts(nlen, ndist, n), rest)
  {
    hide BitsOf, TakeLow;
    assert Pow2(5) == 32 && Pow2(4) == 16;
    var x, y, z := BitsOf(nlen - 257, 5), BitsOf(ndist - 1, 5), BitsOf(n - 4, 4);
    assert CountBits(nlen, ndist, n) + rest == x + (y + (z + rest));
    TakeSent(nlen - 257, 5, y + (z + rest));
    TakeSent(ndist - 1, 5, z + rest);
    TakeSent(n - 4, 4, rest);
  }

  lemma BothTrees(c: Codes)
    requires IsLens(c.ll) && IsLens(c.dl)
    ensures var items := TreeItems(c.ll) + TreeItems(c.dl);
      TakeAll([], items) == c.ll + c.dl && LegalItems(items) && CodeLengthCode.Fits([], items)
  {
    hide TreeItems, TakeAll, CodeLengthCode.Fits, LegalItem;
    TreeRoundTrip([], c.ll);
    assert [] + c.ll == c.ll;
    TreeRoundTrip(c.ll, c.dl);
    TakeConcat([], TreeItems(c.ll), TreeItems(c.dl));
    FitsConcat([], TreeItems(c.ll), TreeItems(c.dl));
  }

  /** A header that was sent is read back, and nothing behind it is touched. */
  lemma HeaderSent(c: Codes, bl: seq<int>, n: nat, rest: seq<bool>)
    requires Usable(c) && IsBl(bl, n) && Complete(bl) && Sendable(bl, TreeItems(c.ll) + TreeItems(c.dl))
    ensures ReadHeader(HeaderBits(c, bl, n) + rest) == Val(c, rest)
  {
    hide ReadLens, ReadOrder, ReadCounts, CountBits, OrderBits, ItemsBits, TreeItems, TakeAll, CodeLengthCode.Fits,
         Sendable, LegalItem, UsedKraft, Pow2, Usable;
    UsableParts(c);
    var items := TreeItems(c.ll) + TreeItems(c.dl);
    BothTrees(c);
    var x, y, z := CountBits(|c.ll|, |c.dl|, n), OrderBits(bl, n), ItemsBits(bl, items);
    assert HeaderBits(c, bl, n) + rest == x + (y + (z + rest));
    CountsSent(|c.ll|, |c.dl|, n, y + (z + rest));
    NoneOrdered(bl);
    assert y[3 * 0..] == y;
    OrderSent(bl, NoLens(), 0, n, z + rest);
    ItemsSent(bl, items, [], rest);
    assert (c.ll + c.dl)[..|c.ll|] == c.ll && (c.ll + c.dl)[|c.ll|..] == c.dl;
  }

  lemma UsableParts(c: Codes)
    requires Usable(c)
    ensures 257 <= |c.ll| <= L_CODES && 1 <= |c.dl| <= D_CODES && IsLens(c.ll) && IsLens(c.dl)
  {
  }

  lemma NoneOrdered(bl: seq<int>)
    requires |bl| == BL_CODES
    ensures Ordered(NoLens(), bl, 0)
  {
  }
}
